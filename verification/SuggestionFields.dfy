/**
 What a suggested reservation says: whom it attaches, who of them is already on
 a court, when it starts and how long it lasts; and which names match.
 */
module SuggestionFields {
  import opened Wrappers
  import opened BoardMatcher
  import PassDesk
  import Streaks

  // ---- which names match ----------------------------------------------------

  /** t stands at i in s as a whole word: word characters only, and none on either side. */
  ghost predicate WordAt(t: string, s: string, i: int) {
    && t != "" && 0 <= i <= |s| - |t|
    && (forall k :: i <= k < i + |t| ==> WordChar(s[k]) && s[k] == t[k - i])
    && (i > 0 ==> !WordChar(s[i - 1])) && (i + |t| < |s| ==> !WordChar(s[i + |t|]))
  }

  ghost predicate IsWordOf(t: string, s: string) {
    exists i :: WordAt(t, s, i)
  }

  lemma OneWord(w: string, t: string)
    requires forall k :: 0 <= k < |w| ==> WordChar(w[k])
    ensures IsWordOf(t, w) <==> t != "" && t == w
  {
    if t != "" && t == w {
      assert WordAt(t, w, 0);
    }
  }

  lemma WordInLeft(left: string, sep: char, right: string, t: string, i: int)
    requires !WordChar(sep) && 0 <= i <= |left| - |t|
    ensures WordAt(t, left, i) <==> WordAt(t, left + [sep] + right, i)
  {
    var s := left + [sep] + right;
    assert forall k :: 0 <= k < |left| ==> s[k] == left[k];
    assert s[|left|] == sep;
  }

  lemma WordInRight(left: string, sep: char, right: string, t: string, i: int)
    requires !WordChar(sep) && 0 <= i <= |right| - |t|
    ensures WordAt(t, right, i) <==> WordAt(t, left + [sep] + right, |left| + 1 + i)
  {
    var s := left + [sep] + right;
    assert s[|left|] == sep && s[|left| + 1..] == right;
    WordInSuffix(s, |left| + 1, right, t, i);
  }

  lemma WordInSuffix(s: string, n: nat, right: string, t: string, i: int)
    requires 0 < n <= |s| && right == s[n..] && !WordChar(s[n - 1]) && 0 <= i <= |right| - |t|
    ensures WordAt(t, right, i) <==> WordAt(t, s, n + i)
  {
    hide WordChar;
    assert forall k :: n <= k < |s| ==> s[k] == right[k - n];
  }

  lemma WordNotAcross(left: string, sep: char, right: string, t: string, i: int)
    requires !WordChar(sep) && WordAt(t, left + [sep] + right, i)
    ensures i <= |left| - |t| || |left| + 1 <= i
  {
    assert (left + [sep] + right)[|left|] == sep;
  }

  /** The words of a text are those on either side of a separator. */
  lemma WordsAround(left: string, sep: char, right: string, t: string)
    requires !WordChar(sep)
    ensures IsWordOf(t, left + [sep] + right) <==> IsWordOf(t, left) || IsWordOf(t, right)
  {
    var n := |left| + 1;
    if i :| WordAt(t, left, i) {
      WordInLeft(left, sep, right, t, i);
    }
    if i :| WordAt(t, right, i) {
      WordInRight(left, sep, right, t, i);
    }
    if i :| WordAt(t, left + [sep] + right, i) {
      WordNotAcross(left, sep, right, t, i);
      if i < n {
        WordInLeft(left, sep, right, t, i);
      } else {
        WordInRight(left, sep, right, t, i - n);
        assert n + (i - n) == i;
      }
    }
    hide WordAt;
  }

  /** Splitting finds exactly the whole words; `w` is the word begun before s. */
  lemma {:induction false} SplitFindsWords(s: string, w: string, t: string)
    requires forall k :: 0 <= k < |w| ==> WordChar(w[k])
    ensures t != "" && t in Split(s, w) <==> IsWordOf(t, w + s)
  {
    hide WordChar, IsWordOf;
    if s == [] {
      OneWord(w, t);
      assert w + s == w;
    } else if WordChar(s[0]) {
      SplitFindsWords(s[1..], w + [s[0]], t);
      assert w + [s[0]] + s[1..] == w + s;
    } else {
      SplitFindsWords(s[1..], "", t);
      WordsAround(w, s[0], s[1..], t);
      OneWord(w, t);
      assert w + [s[0]] + s[1..] == w + s && "" + s[1..] == s[1..];
    }
  }

  /** `needle` occurs somewhere in `hay`. */
  ghost predicate Within(needle: string, hay: string) {
    exists before, after :: hay == before + needle + after
  }

  lemma ContainsIsWithin(hay: string, needle: string)
    ensures Contains(hay, needle) <==> Within(needle, hay)
  {
    if i :| 0 <= i <= |hay| && OccursAt(hay, i, needle) {
      assert hay == hay[..i] + needle + hay[i + |needle|..];
    }
    if before, after :| hay == before + needle + after {
      assert OccursAt(hay, |before|, needle);
    }
  }

  /** Some whole word of at least three characters of `a` is part of `b`. */
  ghost predicate SharesWord(a: string, b: string) {
    exists t :: |t| >= 3 && IsWordOf(t, a) && Within(t, b)
  }

  lemma WordOccursIsShared(a: string, b: string)
    ensures WordOccurs(a, b) <==> SharesWord(a, b)
  {
    assert "" + a == a;
    if t :| t in Split(a, "") && |t| >= 3 && Contains(b, t) {
      SplitFindsWords(a, "", t);
      ContainsIsWithin(b, t);
    }
    if t :| |t| >= 3 && IsWordOf(t, a) && Within(t, b) {
      SplitFindsWords(a, "", t);
      ContainsIsWithin(b, t);
    }
    hide Split, IsWordOf, Contains, Within;
  }

  /** A login matches a board name if they are equal but for case, or a word of one is part of the other. */
  lemma NamesMatchExactlyWhen(login: string, name: string)
    ensures SameName(login, name) <==>
              var l, n := PassDesk.Fold(login), PassDesk.Fold(name);
              l == n || SharesWord(l, n) || SharesWord(n, l)
  {
    WordOccursIsShared(PassDesk.Fold(login), PassDesk.Fold(name));
    WordOccursIsShared(PassDesk.Fold(name), PassDesk.Fold(login));
  }

  // ---- what a suggestion carries --------------------------------------------

  lemma {:induction false} IdsAndNames(g: seq<Login>)
    ensures |Ids(g)| == |Names(g)| == |g|
    ensures forall k :: 0 <= k < |g| ==> Ids(g)[k] == g[k].id && Names(g)[k] == g[k].name
  {
    if g != [] {
      IdsAndNames(g[..|g| - 1]);
    }
  }

  lemma {:induction false} BusyOnes(g: seq<Login>)
    ensures forall login :: login in Busy(g) <==> login in g && login.inUse.Some?
    ensures Busy(g) != [] ==>
              exists k :: 0 <= k < |g| && g[k].inUse.Some? && Busy(g)[0] == g[k] && forall j :: 0 <= j < k ==> g[j].inUse.None?
  {
    if g != [] {
      var init, last := g[..|g| - 1], g[|g| - 1];
      BusyOnes(init);
      assert g == init + [last];
      if Busy(init) == [] {
        forall j | 0 <= j < |init| ensures g[j].inUse.None? {
          assert init[j] in init && init[j] !in Busy(init);
        }
      } else {
        var k :| 0 <= k < |init| && init[k].inUse.Some? && Busy(init)[0] == init[k]
                 && forall j :: 0 <= j < k ==> init[j].inUse.None?;
        assert g[k] == init[k] && forall j :: 0 <= j < k ==> g[j] == init[j];
      }
    }
  }

  /**
   A suggestion attaches the logins placed at its half, in order; it marks
   exactly those already on a court, and names the court of the first of them.
   */
  lemma SuggestionCarriesItsLogins(logins: seq<Login>, board: seq<Panel>, out: seq<Suggestion>, s: nat)
    requires Fits(out, Halves(logins, board, |board|), logins, board) && s < |out|
    ensures var h := Halves(logins, board, |board|)[s];
            var g := Group(logins, board, h);
            && out[s].playing == h.playing && h.panel < |board| && out[s].panel == board[h.panel]
            && |out[s].ids| == |out[s].names| == |g|
            && (forall k :: 0 <= k < |g| ==> out[s].ids[k] == g[k].id && out[s].names[k] == g[k].name)
            && (forall id :: id in out[s].alreadyInUse <==> exists login :: login in g && login.id == id && login.inUse.Some?)
            && (out[s].inUseCourt.None? ==> forall login :: login in g ==> login.inUse.None?)
            && (out[s].inUseCourt.Some? ==>
                  exists k :: 0 <= k < |g| && out[s].inUseCourt == g[k].inUse && forall j :: 0 <= j < k ==> g[j].inUse.None?)
  {
    var h := Halves(logins, board, |board|)[s];
    var g := Group(logins, board, h);
    IdsAndNames(g);
    BusyOnes(g);
    assert out[s] == Suggest(g, board, h);
    forall id ensures id in Ids(Busy(g)) <==> exists login :: login in g && login.id == id && login.inUse.Some? {
      IdsOf(Busy(g), id);
    }
    if Busy(g) != [] {
      assert Busy(g)[0] in Busy(g);
    }
    hide Halves, Group, Ids, Names, Busy, MinPosition;
  }

  /** No number of lo..hi is nearer to m than x is. */
  ghost predicate Nearest(x: int, m: int, lo: int, hi: int) {
    lo <= x <= hi && forall k :: lo <= k <= hi ==> Streaks.Distance(x, m) <= Streaks.Distance(k, m)
  }

  /**
   When a suggestion starts and how long it lasts: playing now until the board's
   minutes run out, or waiting for those minutes and then a full slot; minutes
   the board does not show count as a full slot, or a quarter of an hour's wait.
   */
  lemma SuggestionTimes(logins: seq<Login>, board: seq<Panel>, out: seq<Suggestion>, s: nat)
    requires Fits(out, Halves(logins, board, |board|), logins, board) && s < |out|
    ensures var x, left := out[s], out[s].panel.minutesLeft;
            && (x.playing ==>
                  && x.startType == Now && x.startInMinutes == 0
                  && (if left.Some? then Nearest(x.duration, left.value, 1, 45) else x.duration == 45))
            && (!x.playing ==>
                  && x.startType == AtTime && x.duration == 45
                  && (if left.Some? then Nearest(x.startInMinutes, left.value, 2, 170) else x.startInMinutes == 15))
            && Nearest(x.playerCount, |Group(logins, board, Halves(logins, board, |board|)[s])|, 1, 4)
  {
    hide Halves, Group, Ids, Names, Busy, MinPosition;
  }
}
