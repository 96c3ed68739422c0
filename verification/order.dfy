/** Ranking of live players for colour assignment: the UUID field reordering,
    string order, the sort of player tiles, and the frozen colour map. */
module PlayerOrder {
  import opened Basics

  // ------------------------------------------------------- splitting on '-'

  /** The groups of `s` between dashes; like a string split, an empty string
      and empty groups are kept. */
  function Split(s: string): (parts: seq<string>)
    ensures |parts| >= 1
    ensures forall i :: 0 <= i < |parts| ==> '-' !in parts[i]
    decreases |s|
  {
    if |s| == 0 then [""]
    else if s[0] == '-' then [""] + Split(s[1..])
    else
      var rest := Split(s[1..]);
      [[s[0]] + rest[0]] + rest[1..]
  }

  /** The groups glued back together with dashes. */
  function Join(parts: seq<string>): string
    decreases |parts|
  {
    if |parts| == 0 then ""
    else if |parts| == 1 then parts[0]
    else parts[0] + "-" + Join(parts[1..])
  }

  /** Joining the groups of a split gives back the original string. */
  lemma {:induction false} JoinSplit(s: string)
    ensures Join(Split(s)) == s
    decreases |s|
  {
    if |s| == 0 {
    } else if s[0] == '-' {
      JoinSplit(s[1..]);
      assert s == [s[0]] + s[1..];
    } else {
      JoinSplit(s[1..]);
      var rest := Split(s[1..]);
      assert s == [s[0]] + s[1..];
      if |rest| == 1 {
      } else {
        assert Join(rest) == rest[0] + "-" + Join(rest[1..]);
        assert [[s[0]] + rest[0]] + rest[1..] == [[s[0]] + rest[0]] + rest[1..];
        assert Join([[s[0]] + rest[0]] + rest[1..]) == [s[0]] + rest[0] + "-" + Join(rest[1..]) by {
          assert ([[s[0]] + rest[0]] + rest[1..])[1..] == rest[1..];
        }
      }
    }
  }

  /** Splitting dash-free groups joined with dashes recovers the groups. */
  lemma {:induction false} SplitJoin(parts: seq<string>)
    requires |parts| >= 1
    requires forall i :: 0 <= i < |parts| ==> '-' !in parts[i]
    ensures Split(Join(parts)) == parts
    decreases |parts|, |parts[0]|
  {
    var p := parts[0];
    if |parts| == 1 {
      SplitGroup(p, "");
      assert p + "" == p;
    } else {
      SplitJoin(parts[1..]);
      assert Join(parts) == p + "-" + Join(parts[1..]);
      SplitGroup(p, Join(parts[1..]));
      assert [""] + parts[1..] == [""] + parts[1..];
    }
  }

  /** Splitting a dash-free prefix followed by the rest: the prefix heads the
      first group of the rest's split (the rest starting with a dash, or empty). */
  lemma {:induction false} SplitGroup(p: string, tail: string)
    requires '-' !in p
    ensures |tail| == 0 ==> Split(p + tail) == [p]
    ensures Split(p + "-" + tail) == [p] + Split(tail)
    decreases |p|
  {
    if |p| == 0 {
      assert p + tail == tail;
      assert p + "-" + tail == "-" + tail;
      assert ("-" + tail)[1..] == tail;
    } else {
      assert p == [p[0]] + p[1..];
      SplitGroup(p[1..], tail);
      if |tail| == 0 {
        assert (p + tail)[1..] == p[1..] + tail;
      }
      assert (p + "-" + tail)[1..] == p[1..] + "-" + tail;
      var rest := Split(p[1..] + "-" + tail);
      assert rest == [p[1..]] + Split(tail);
      assert [[p[0]] + rest[0]] + rest[1..] == [p] + Split(tail);
    }
  }

  // ------------------------------------------------------- id rearrangement

  /** Group `i` of a split, or the empty string when there are fewer groups
      (a missing group is `undefined`, which joins as nothing). */
  function Group(parts: seq<string>, i: nat): string {
    if i < |parts| then parts[i] else ""
  }

  /** Reorders a version-1 UUID `low-mid-hi-...` to `hi mid low`, which sorts
      by creation time (field layout of section 4.1.2 of RFC 4122). Groups
      after the third are dropped. */
  function RearrangeId(uuid: string): string {
    var parts := Split(uuid);
    Group(parts, 2) + Group(parts, 1) + Group(parts, 0)
  }

  /** For an id made of dash-free groups, the key is the third group, then the
      second, then the first, whatever follows them. */
  lemma RearrangeUuid(low: string, mid: string, hi: string, rest: seq<string>)
    requires '-' !in low && '-' !in mid && '-' !in hi
    requires forall i :: 0 <= i < |rest| ==> '-' !in rest[i]
    ensures RearrangeId(Join([low, mid, hi] + rest)) == hi + mid + low
  {
    var parts := [low, mid, hi] + rest;
    DashFree(low, mid, hi, rest);
    var id := Join(parts);
    SplitJoin(parts);
    KeyOfGroups(id, parts);
  }

  lemma DashFree(low: string, mid: string, hi: string, rest: seq<string>)
    requires '-' !in low && '-' !in mid && '-' !in hi
    requires forall i :: 0 <= i < |rest| ==> '-' !in rest[i]
    ensures var parts := [low, mid, hi] + rest;
      |parts| >= 3 && parts[0] == low && parts[1] == mid && parts[2] == hi &&
      forall i :: 0 <= i < |parts| ==> '-' !in parts[i]
  {
    var parts := [low, mid, hi] + rest;
    forall i | 0 <= i < |parts|
      ensures '-' !in parts[i]
    {
      if i >= 3 {
        assert parts[i] == rest[i - 3];
      }
    }
  }

  /** The key is read off the groups of the split. */
  lemma KeyOfGroups(id: string, parts: seq<string>)
    requires Split(id) == parts && |parts| >= 3
    ensures RearrangeId(id) == parts[2] + parts[1] + parts[0]
  {
  }

  /** A dash-free id has itself as key. */
  lemma RearrangePlainId(s: string)
    requires '-' !in s
    ensures RearrangeId(s) == s
  {
    SplitJoin([s]);
  }

  // ------------------------------------------------------------ string order

  /** Lexicographic string order, character by character, as the client's `>`
      on strings. */
  predicate Less(a: string, b: string)
    decreases |a|
  {
    if |a| == 0 then |b| > 0
    else if |b| == 0 then false
    else if a[0] != b[0] then a[0] < b[0]
    else Less(a[1..], b[1..])
  }

  lemma {:induction false} LessIrreflexive(a: string)
    ensures !Less(a, a)
    decreases |a|
  {
    if |a| > 0 {
      LessIrreflexive(a[1..]);
    }
  }

  lemma {:induction false} LessAsymmetric(a: string, b: string)
    ensures Less(a, b) ==> !Less(b, a)
    decreases |a|
  {
    if |a| > 0 && |b| > 0 && a[0] == b[0] {
      LessAsymmetric(a[1..], b[1..]);
    }
  }

  lemma {:induction false} LessTransitive(a: string, b: string, c: string)
    ensures Less(a, b) && Less(b, c) ==> Less(a, c)
    decreases |a|
  {
    if |a| > 0 && |b| > 0 && |c| > 0 {
      LessTransitive(a[1..], b[1..], c[1..]);
    }
  }

  lemma {:induction false} LessTotal(a: string, b: string)
    ensures a != b ==> Less(a, b) || Less(b, a)
    decreases |a|
  {
    if |a| > 0 && |b| > 0 && a[0] == b[0] {
      LessTotal(a[1..], b[1..]);
      if a != b {
        assert a == [a[0]] + a[1..] && b == [b[0]] + b[1..];
      }
    }
  }

  /** "Not greater" is transitive. */
  lemma NotLessTransitive(a: string, b: string, c: string)
    requires !Less(b, a) && !Less(c, b)
    ensures !Less(c, a)
  {
    LessTotal(a, b);
    LessTransitive(c, a, b);
  }

  // --------------------------------------------------------- sorting tiles

  /** A tile that carries a live player: its 1-based position and the player. */
  datatype PlayerTile = PlayerTile(x: int, y: int, id: Id)

  function Key(t: PlayerTile): string { RearrangeId(t.id) }

  /** Keys never decrease along the sequence. */
  predicate Sorted(s: seq<PlayerTile>) {
    forall i, j :: 0 <= i < j < |s| ==> !Less(Key(s[j]), Key(s[i]))
  }

  /** Keys strictly increase along the sequence. */
  predicate StrictlySorted(s: seq<PlayerTile>) {
    forall i, j :: 0 <= i < j < |s| ==> Less(Key(s[i]), Key(s[j]))
  }

  /** No two entries share a key (so no two entries are the same player). */
  predicate DistinctKeys(s: seq<PlayerTile>) {
    forall i, j :: 0 <= i < j < |s| ==> Key(s[i]) != Key(s[j])
  }

  /** Prepending an entry no greater than any other keeps a sequence sorted. */
  lemma SortedCons(h: PlayerTile, rest: seq<PlayerTile>)
    requires Sorted(rest)
    requires forall e :: e in rest ==> !Less(Key(e), Key(h))
    ensures Sorted([h] + rest)
  {
    var r := [h] + rest;
    forall i, j | 0 <= i < j < |r|
      ensures !Less(Key(r[j]), Key(r[i]))
    {
      assert r[j] == rest[j - 1];
      if i > 0 {
        assert r[i] == rest[i - 1];
      } else {
        assert r[j] in rest;
      }
    }
  }

  /** Inserts `t` into a sequence, stepping past exactly the entries the
      client's comparator puts before it (those with a smaller key). */
  function Insert(t: PlayerTile, s: seq<PlayerTile>): (r: seq<PlayerTile>)
    ensures multiset(r) == multiset(s) + multiset{t}
    ensures |r| == |s| + 1
  {
    if |s| == 0 then [t]
    else if Less(Key(s[0]), Key(t)) then
      assert s == [s[0]] + s[1..];
      [s[0]] + Insert(t, s[1..])
    else
      [t] + s
  }

  /** Insertion keeps a sorted sequence sorted. */
  lemma {:induction false} InsertSorted(t: PlayerTile, s: seq<PlayerTile>)
    requires Sorted(s)
    ensures Sorted(Insert(t, s))
    decreases |s|
  {
    if |s| == 0 {
    } else if Less(Key(s[0]), Key(t)) {
      var tail := s[1..];
      assert Sorted(tail) by {
        forall i, j | 0 <= i < j < |tail|
          ensures !Less(Key(tail[j]), Key(tail[i]))
        {
          assert tail[i] == s[i + 1] && tail[j] == s[j + 1];
        }
      }
      InsertSorted(t, tail);
      var rest := Insert(t, tail);
      forall e | e in rest
        ensures !Less(Key(e), Key(s[0]))
      {
        assert e in multiset(rest);
        if e == t {
          LessAsymmetric(Key(s[0]), Key(t));
        } else {
          assert e in multiset(tail);
          var k :| 0 <= k < |tail| && tail[k] == e;
          assert s[k + 1] == e;
        }
      }
      SortedCons(s[0], rest);
    } else {
      forall e | e in s
        ensures !Less(Key(e), Key(t))
      {
        var k :| 0 <= k < |s| && s[k] == e;
        if k > 0 {
          NotLessTransitive(Key(t), Key(s[0]), Key(s[k]));
        }
      }
      SortedCons(t, s);
    }
  }

  /** The client's sort of player tiles by rearranged id: a permutation of the
      input in non-decreasing key order. */
  function SortTiles(s: seq<PlayerTile>): (r: seq<PlayerTile>)
    ensures multiset(r) == multiset(s)
    ensures |r| == |s|
    ensures Sorted(r)
  {
    if |s| == 0 then []
    else
      assert s == [s[0]] + s[1..];
      var sortedTail := SortTiles(s[1..]);
      InsertSorted(s[0], sortedTail);
      Insert(s[0], sortedTail)
  }

  lemma {:induction false} DistinctCountsOne(a: seq<PlayerTile>, x: PlayerTile)
    requires DistinctKeys(a)
    ensures multiset(a)[x] <= 1
    decreases |a|
  {
    if |a| > 0 {
      assert a == [a[0]] + a[1..];
      DistinctCountsOne(a[1..], x);
      forall k | 0 <= k < |a[1..]|
        ensures a[1..][k] != a[0]
      {
        assert a[1..][k] == a[k + 1];
        assert Key(a[0]) != Key(a[k + 1]);
      }
      assert a[0] !in a[1..];
    }
  }

  lemma RepeatCountsTwo(b: seq<PlayerTile>, i: int, j: int)
    requires 0 <= i < j < |b| && b[i] == b[j]
    ensures multiset(b)[b[i]] >= 2
  {
    assert b == b[..j] + [b[j]] + b[j + 1..];
    assert b[..j][i] == b[i];
    assert b[i] in multiset(b[..j]);
  }

  /** Distinct keys survive any permutation. */
  lemma DistinctKeysPermutation(a: seq<PlayerTile>, b: seq<PlayerTile>)
    requires multiset(a) == multiset(b) && DistinctKeys(a)
    ensures DistinctKeys(b)
  {
    forall i, j | 0 <= i < j < |b|
      ensures Key(b[i]) != Key(b[j])
    {
      if b[i] == b[j] {
        RepeatCountsTwo(b, i, j);
        DistinctCountsOne(a, b[i]);
      }
      assert b[i] in multiset(a) && b[j] in multiset(a);
      var p :| 0 <= p < |a| && a[p] == b[i];
      var q :| 0 <= q < |a| && a[q] == b[j];
      assert p != q;
      if p < q {
        assert Key(a[p]) != Key(a[q]);
      } else {
        assert Key(a[q]) != Key(a[p]);
      }
    }
  }

  lemma SortedDistinctIsStrict(s: seq<PlayerTile>)
    requires Sorted(s) && DistinctKeys(s)
    ensures StrictlySorted(s)
  {
    forall i, j | 0 <= i < j < |s|
      ensures Less(Key(s[i]), Key(s[j]))
    {
      LessTotal(Key(s[i]), Key(s[j]));
    }
  }

  lemma StrictTail(a: seq<PlayerTile>)
    requires StrictlySorted(a) && |a| > 0
    ensures StrictlySorted(a[1..])
  {
    var t := a[1..];
    forall i, j | 0 <= i < j < |t|
      ensures Less(Key(t[i]), Key(t[j]))
    {
      assert t[i] == a[i + 1] && t[j] == a[j + 1];
    }
  }

  /** Strictly sorted arrangements of the same tiles start with the same tile. */
  lemma StrictHeadsEqual(a: seq<PlayerTile>, b: seq<PlayerTile>)
    requires StrictlySorted(a) && StrictlySorted(b) && multiset(a) == multiset(b) && |a| > 0
    ensures |b| > 0 && a[0] == b[0]
  {
    assert a[0] in multiset(b);
    var m :| 0 <= m < |b| && b[m] == a[0];
    assert b[0] in multiset(a);
    var k :| 0 <= k < |a| && a[k] == b[0];
    if m > 0 {
      if k > 0 {
        LessAsymmetric(Key(a[0]), Key(b[0]));
      } else {
        LessIrreflexive(Key(b[0]));
      }
      assert false;
    }
  }

  /** Two strictly sorted arrangements of the same tiles are the same sequence. */
  lemma {:induction false} StrictlySortedUnique(a: seq<PlayerTile>, b: seq<PlayerTile>)
    requires StrictlySorted(a) && StrictlySorted(b) && multiset(a) == multiset(b)
    ensures a == b
    decreases |a|
  {
    assert |b| == |multiset(b)| == |multiset(a)| == |a|;
    if |a| > 0 {
      StrictHeadsEqual(a, b);
      assert a == [a[0]] + a[1..] && b == [b[0]] + b[1..];
      assert multiset(a) == multiset{a[0]} + multiset(a[1..]);
      assert multiset(b) == multiset{b[0]} + multiset(b[1..]);
      assert multiset(a[1..]) == multiset(a) - multiset{a[0]};
      assert multiset(b[1..]) == multiset(b) - multiset{b[0]};
      StrictTail(a);
      StrictTail(b);
      StrictlySortedUnique(a[1..], b[1..]);
    }
  }

  /** When no two players share a key, the ranking does not depend on the order
      in which the snapshot lists the tiles. */
  lemma RankingIgnoresArrivalOrder(s1: seq<PlayerTile>, s2: seq<PlayerTile>)
    requires multiset(s1) == multiset(s2) && DistinctKeys(s1)
    ensures SortTiles(s1) == SortTiles(s2)
    ensures StrictlySorted(SortTiles(s1))
  {
    var r1, r2 := SortTiles(s1), SortTiles(s2);
    DistinctKeysPermutation(s1, r1);
    DistinctKeysPermutation(s1, r2);
    SortedDistinctIsStrict(r1);
    SortedDistinctIsStrict(r2);
    StrictlySortedUnique(r1, r2);
  }

  // --------------------------------------------------------------- colours

  function Ids(s: seq<PlayerTile>): set<Id> {
    set i | 0 <= i < |s| :: s[i].id
  }

  /** Colour index by rank: each player gets its (last) position in `s`. */
  function Ranks(s: seq<PlayerTile>): (m: map<Id, int>)
    ensures m.Keys == Ids(s)
    ensures forall id :: id in m ==> 0 <= m[id] < |s|
    ensures forall id :: id in m ==> s[m[id]].id == id
  {
    if |s| == 0 then map[]
    else
      var init := s[..|s| - 1];
      assert Ids(s) == Ids(init) + {s[|s| - 1].id} by {
        forall id | id in Ids(s) ensures id in Ids(init) + {s[|s| - 1].id} {
          var i :| 0 <= i < |s| && s[i].id == id;
          if i < |s| - 1 { assert init[i] == s[i]; }
        }
      }
      Ranks(init)[s[|s| - 1].id := |s| - 1]
  }

  /** With distinct players, the rank of the i-th player is i: colours are
      0 .. k-1 in ranking order. */
  lemma RanksAreIndices(s: seq<PlayerTile>)
    requires DistinctKeys(s)
    ensures forall i :: 0 <= i < |s| ==> Ranks(s)[s[i].id] == i
  {
    forall i | 0 <= i < |s|
      ensures Ranks(s)[s[i].id] == i
    {
      var r := Ranks(s)[s[i].id];
      assert Key(s[r]) == Key(s[i]);
    }
  }

  /** The colour map is filled from the ranking only while it is empty. */
  function FreezeColors(colors: map<Id, int>, sorted: seq<PlayerTile>): (r: map<Id, int>)
    ensures |colors| > 0 ==> r == colors
    ensures |colors| == 0 ==> r.Keys == Ids(sorted)
    ensures |colors| == 0 ==> forall id :: id in r ==> 0 <= r[id] < |sorted| && sorted[r[id]].id == id
  {
    if |colors| == 0 then Ranks(sorted) else colors
  }

  /** Once a snapshot with players has been seen, the colour map never changes
      again, whatever later snapshots contain. */
  lemma ColorsFreeze(colors: map<Id, int>, first: seq<PlayerTile>, later: seq<PlayerTile>)
    requires |first| > 0
    ensures FreezeColors(FreezeColors(colors, first), later) == FreezeColors(colors, first)
  {
    var c := FreezeColors(colors, first);
    if |colors| == 0 {
      assert first[0].id in Ids(first);
      assert first[0].id in c;
    }
  }
}
