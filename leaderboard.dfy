/** The leaderboard: a new entry is appended to the stored list, the list
    is sorted by experience points, highest first (a stable sort, so
    entries with equal points keep their order), and the first ten are
    stored. */
module Leaderboard {
  import opened Common

  /** One leaderboard row: the name typed in, the level, the XP, the number
      of badges held and the time stamp of the entry. */
  datatype Entry = Entry(name: string, level: int, xp: int, badges: int, date: string)

  /** The number of rows kept. */
  const Capacity: int := 10

  /** Highest XP first. */
  ghost predicate SortedByXp(s: seq<Entry>) {
    forall i, j :: 0 <= i < j < |s| ==> s[i].xp >= s[j].xp
  }

  /** `e` placed after every leading entry with at least its XP: in a list
      sorted highest first, that is where a stable sort puts an entry that
      came after all of them. */
  function Place(t: seq<Entry>, e: Entry): (r: seq<Entry>)
    ensures |r| == |t| + 1
  {
    if |t| == 0 then [e]
    else if t[0].xp >= e.xp then [t[0]] + Place(t[1..], e)
    else [e] + t
  }

  /** `leaderboard.sort((a, b) => b.xp - a.xp)`: a stable sort, highest XP
      first, built by placing each entry after the sorted entries before it. */
  function SortByXp(s: seq<Entry>): (r: seq<Entry>)
    ensures |r| == |s|
  {
    if |s| == 0 then [] else Place(SortByXp(s[..|s| - 1]), s[|s| - 1])
  }

  /** The index of the first entry of t with fewer than `xp` points, or
      |t| when there is none. */
  function FirstBelow(t: seq<Entry>, xp: int): (k: nat)
    ensures k <= |t|
  {
    if |t| == 0 || t[0].xp < xp then 0
    else 1 + FirstBelow(t[1..], xp)
  }

  /** Every entry before `FirstBelow` has at least `xp` points, the one at
      it has fewer, and in a sorted list so does every later one. */
  lemma {:induction false} FirstBelowSplits(t: seq<Entry>, xp: int)
    ensures var k := FirstBelow(t, xp);
      && (forall i :: 0 <= i < k ==> t[i].xp >= xp)
      && (k < |t| ==> t[k].xp < xp)
      && (SortedByXp(t) ==> forall i :: k <= i < |t| ==> t[i].xp < xp)
  {
    if |t| > 0 && t[0].xp >= xp {
      FirstBelowSplits(t[1..], xp);
    }
  }

  /** `Place` inserts the entry right before the first entry with fewer
      points than it. */
  lemma {:induction false} PlaceAtFirstBelow(t: seq<Entry>, e: Entry)
    ensures var k := FirstBelow(t, e.xp);
      Place(t, e) == t[..k] + [e] + t[k..]
  {
    if |t| > 0 && t[0].xp >= e.xp {
      PlaceAtFirstBelow(t[1..], e);
      var k := FirstBelow(t[1..], e.xp);
      assert t[..k + 1] == [t[0]] + t[1..][..k];
      assert t[k + 1..] == t[1..][k..];
    }
  }

  /** Placing an entry adds exactly that entry. */
  lemma PlacePermutes(t: seq<Entry>, e: Entry)
    ensures multiset(Place(t, e)) == multiset(t) + multiset{e}
  {
    PlaceAtFirstBelow(t, e);
    var k := FirstBelow(t, e.xp);
    assert t == t[..k] + t[k..];
    assert multiset(t[..k] + [e] + t[k..]) == multiset(t[..k]) + multiset{e} + multiset(t[k..]);
  }

  /** Placing an entry keeps a sorted list sorted. */
  lemma PlaceKeepsSorted(t: seq<Entry>, e: Entry)
    requires SortedByXp(t)
    ensures SortedByXp(Place(t, e))
  {
    PlaceAtFirstBelow(t, e);
    FirstBelowSplits(t, e.xp);
    var k := FirstBelow(t, e.xp);
    var r := t[..k] + [e] + t[k..];
    assert forall x :: 0 <= x < |r| ==> r[x] == if x < k then t[x] else if x == k then e else t[x - 1];
  }

  /** The sort orders by XP, highest first. */
  lemma {:induction false} SortByXpSorted(s: seq<Entry>)
    ensures SortedByXp(SortByXp(s))
  {
    if |s| > 0 {
      SortByXpSorted(s[..|s| - 1]);
      PlaceKeepsSorted(SortByXp(s[..|s| - 1]), s[|s| - 1]);
    }
  }

  /** The sort keeps every entry: its result is a permutation of its input. */
  lemma {:induction false} SortByXpPermutes(s: seq<Entry>)
    ensures multiset(SortByXp(s)) == multiset(s)
  {
    if |s| > 0 {
      var init := s[..|s| - 1];
      SortByXpPermutes(init);
      PlacePermutes(SortByXp(init), s[|s| - 1]);
      assert s == init + [s[|s| - 1]];
    }
  }

  /** Sorting a list that is already sorted keeps it as it is. */
  lemma {:induction false} SortSortedIsIdentity(s: seq<Entry>)
    requires SortedByXp(s)
    ensures SortByXp(s) == s
  {
    if |s| > 0 {
      var init := s[..|s| - 1];
      var last := s[|s| - 1];
      assert SortedByXp(init);
      SortSortedIsIdentity(init);
      PlaceAtFirstBelow(init, last);
      FirstBelowSplits(init, last.xp);
      var k := FirstBelow(init, last.xp);
      if k < |init| {
        assert false;
      }
      assert init[..k] == init;
      assert s == init + [last];
    }
  }

  /** The entries of s with exactly `xp` points, in their order in s. */
  function WithXp(s: seq<Entry>, xp: int): (r: seq<Entry>)
    ensures |r| <= |s|
  {
    if |s| == 0 then []
    else (if s[0].xp == xp then [s[0]] else []) + WithXp(s[1..], xp)
  }

  /** Selecting the entries with given points distributes over
      concatenation. */
  lemma {:induction false} WithXpConcat(a: seq<Entry>, b: seq<Entry>, xp: int)
    ensures WithXp(a + b, xp) == WithXp(a, xp) + WithXp(b, xp)
  {
    if |a| > 0 {
      assert (a + b)[0] == a[0];
      assert (a + b)[1..] == a[1..] + b;
      WithXpConcat(a[1..], b, xp);
    } else {
      assert a + b == b;
    }
  }

  /** A list whose every entry has other points than `xp` has none selected. */
  lemma {:induction false} WithXpNone(s: seq<Entry>, xp: int)
    requires forall i :: 0 <= i < |s| ==> s[i].xp != xp
    ensures WithXp(s, xp) == []
  {
    if |s| > 0 {
      WithXpNone(s[1..], xp);
    }
  }

  /** Inserting e at index k of t, before a run of entries with fewer
      points than e, selects for every XP value what appending e at the
      end selects. */
  lemma InsertBeforeLowerIsStable(t: seq<Entry>, k: nat, e: Entry, xp: int)
    requires k <= |t|
    requires forall i :: k <= i < |t| ==> t[i].xp < e.xp
    ensures WithXp(t[..k] + [e] + t[k..], xp) == WithXp(t + [e], xp)
  {
    var before, after := t[..k], t[k..];
    assert t == before + after;
    WithXpConcat(before + [e], after, xp);
    WithXpConcat(before, [e], xp);
    WithXpConcat(t, [e], xp);
    WithXpConcat(before, after, xp);
    var wb, we, wa := WithXp(before, xp), WithXp([e], xp), WithXp(after, xp);
    if xp == e.xp {
      WithXpNone(after, xp);
      assert wa == [];
    } else {
      assert we == [];
    }
    assert wb + we + wa == wb + wa + we;
  }

  /** Placing an entry into a sorted list keeps, for every XP value, the
      entries with that value in the order they would have if the entry
      were appended at the end. */
  lemma PlaceIsStable(t: seq<Entry>, e: Entry, xp: int)
    requires SortedByXp(t)
    ensures WithXp(Place(t, e), xp) == WithXp(t + [e], xp)
  {
    PlaceAtFirstBelow(t, e);
    FirstBelowSplits(t, e.xp);
    InsertBeforeLowerIsStable(t, FirstBelow(t, e.xp), e, xp);
  }

  /** The sort is stable: for every XP value, the entries with that value
      come out in the order they went in. */
  lemma {:induction false} SortByXpStable(s: seq<Entry>, xp: int)
    ensures WithXp(SortByXp(s), xp) == WithXp(s, xp)
  {
    if |s| > 0 {
      var init := s[..|s| - 1];
      SortByXpStable(init, xp);
      SortByXpSorted(init);
      PlaceIsStable(SortByXp(init), s[|s| - 1], xp);
      WithXpConcat(SortByXp(init), [s[|s| - 1]], xp);
      WithXpConcat(init, [s[|s| - 1]], xp);
      assert s == init + [s[|s| - 1]];
    }
  }

  /** The board stored by `addToLeaderboard` for the entry `e`: the list
      with `e` appended, sorted, cut to the first ten. */
  function AddEntry(board: seq<Entry>, e: Entry): (r: seq<Entry>)
    ensures |r| == MinInt(Capacity, |board| + 1)
  {
    var sorted := SortByXp(board + [e]);
    sorted[..MinInt(Capacity, |sorted|)]
  }

  /** The stored board is sorted highest first. */
  lemma AddEntrySorted(board: seq<Entry>, e: Entry)
    ensures SortedByXp(AddEntry(board, e))
  {
    SortByXpSorted(board + [e]);
  }

  /** The stored board holds only entries of the old board and the new one,
      and all of them while the old board had fewer than ten rows. */
  lemma AddEntryKeeps(board: seq<Entry>, e: Entry)
    ensures multiset(AddEntry(board, e)) <= multiset(board + [e])
    ensures |board| < Capacity ==> multiset(AddEntry(board, e)) == multiset(board + [e])
  {
    var sorted := SortByXp(board + [e]);
    SortByXpPermutes(board + [e]);
    var kept, cut := AddEntry(board, e), sorted[|AddEntry(board, e)|..];
    assert sorted == kept + cut;
    assert multiset(sorted) == multiset(kept) + multiset(cut);
    if |board| < Capacity {
      assert cut == [];
    }
  }

  /** No entry that was cut has more XP than an entry that was kept. */
  lemma AddEntryDropsLowest(board: seq<Entry>, e: Entry)
    ensures var kept := AddEntry(board, e);
      forall x, i :: x in multiset(board + [e]) - multiset(kept) && 0 <= i < |kept| ==> x.xp <= kept[i].xp
  {
    var sorted := SortByXp(board + [e]);
    SortByXpSorted(board + [e]);
    SortByXpPermutes(board + [e]);
    var kept := AddEntry(board, e);
    var cut := sorted[|kept|..];
    assert sorted == kept + cut;
    assert multiset(board + [e]) - multiset(kept) == multiset(cut);
    CutBelowKept(sorted, |kept|);
  }

  /** Cutting a list sorted highest first after n rows drops no entry with
      more points than a kept one. */
  lemma CutBelowKept(sorted: seq<Entry>, n: nat)
    requires SortedByXp(sorted)
    requires n <= |sorted|
    ensures forall x, i :: x in multiset(sorted[n..]) && 0 <= i < n ==> x.xp <= sorted[i].xp
  {
    forall x: Entry, i | x in multiset(sorted[n..]) && 0 <= i < n
      ensures x.xp <= sorted[i].xp
    {
      var j :| 0 <= j < |sorted[n..]| && sorted[n..][j] == x;
      assert sorted[n + j] == x;
    }
  }

  /** Sorting a sorted board with one entry appended inserts that entry
      right before the first entry with fewer points than it. */
  lemma SortAppendedToSorted(board: seq<Entry>, e: Entry)
    requires SortedByXp(board)
    ensures var k := FirstBelow(board, e.xp);
      SortByXp(board + [e]) == board[..k] + [e] + board[k..]
  {
    var s := board + [e];
    assert s[..|s| - 1] == board;
    SortSortedIsIdentity(board);
    PlaceAtFirstBelow(board, e);
  }

  /** The first ten rows of a list with `e` inserted at index k hold `e`
      when k is below ten. */
  lemma InsertedKept(board: seq<Entry>, e: Entry, k: nat)
    requires k <= |board|
    ensures k < Capacity ==> e in (board[..k] + [e] + board[k..])[..MinInt(Capacity, |board| + 1)]
  {
    var inserted := board[..k] + [e] + board[k..];
    if k < Capacity {
      assert inserted[..MinInt(Capacity, |board| + 1)][k] == e;
    }
  }

  /** On a sorted board, the new entry goes in right after every entry with
      at least its XP (`FirstBelowSplits`), and the list is then cut to ten
      rows: it stays on the board when fewer than ten entries have at least
      its XP. */
  lemma AddToSortedBoard(board: seq<Entry>, e: Entry)
    requires SortedByXp(board)
    ensures var k := FirstBelow(board, e.xp);
      && AddEntry(board, e) == (board[..k] + [e] + board[k..])[..MinInt(Capacity, |board| + 1)]
      && (k < Capacity ==> e in AddEntry(board, e))
  {
    SortAppendedToSorted(board, e);
    InsertedKept(board, e, FirstBelow(board, e.xp));
  }

  /** On a sorted board, the new entry goes in right after every entry
      with at least its XP and the list is cut to ten, so the new entry
      stays when fewer than ten entries have at least its XP. */
  lemma AddEntryKeepsHigh(board: seq<Entry>, e: Entry)
    ensures SortedByXp(board) ==>
      var k := FirstBelow(board, e.xp);
      AddEntry(board, e) == (board[..k] + [e] + board[k..])[..MinInt(Capacity, |board| + 1)]
    ensures SortedByXp(board) && FirstBelow(board, e.xp) < Capacity ==> e in AddEntry(board, e)
  {
    if SortedByXp(board) {
      AddToSortedBoard(board, e);
    }
  }

  /** `addToLeaderboard`: with no name (the prompt cancelled or left empty)
      the stored board is left as it is. Otherwise the stored board is the
      top ten of the old board with the new entry: sorted highest first,
      as long as the old board plus one up to ten rows, made of entries of
      the old board and the new one (all of them while the old board had
      fewer than ten rows), with no dropped entry above a kept one. On a
      sorted board the new entry goes in right after every entry with at
      least its XP, so a tie at the tenth place drops the new entry, and it
      stays when fewer than ten entries have at least its XP. */
  function AddToLeaderboard(board: seq<Entry>, name: Option<string>, level: int, xp: int, badges: int, date: string): (r: seq<Entry>)
    ensures (name.None? || name.value == "") ==> r == board
    ensures name.Some? && name.value != "" ==>
      var e := Entry(name.value, level, xp, badges, date);
      && SortedByXp(r)
      && |r| == MinInt(Capacity, |board| + 1)
      && multiset(r) <= multiset(board + [e])
      && (|board| < Capacity ==> multiset(r) == multiset(board + [e]))
      && (forall x, i :: x in multiset(board + [e]) - multiset(r) && 0 <= i < |r| ==> x.xp <= r[i].xp)
      && (SortedByXp(board) ==>
            var k := FirstBelow(board, e.xp);
            r == (board[..k] + [e] + board[k..])[..MinInt(Capacity, |board| + 1)])
      && (SortedByXp(board) && FirstBelow(board, e.xp) < Capacity ==> e in r)
  {
    if name.None? || name.value == "" then board
    else
      var e := Entry(name.value, level, xp, badges, date);
      AddEntrySorted(board, e);
      AddEntryKeeps(board, e);
      AddEntryDropsLowest(board, e);
      AddEntryKeepsHigh(board, e);
      AddEntry(board, e)
  }
}
