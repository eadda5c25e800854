/** The file allocation table: entry c links cluster c to the next one of its chain. */
module FatTable {
  import opened Basics

  const FREE := 0
  const BAD := 0xFFF7
  const EOC_MIN := 0xFFF8
  const EOC_MAX := 0xFFFF

  type Table = seq<Half>

  /** A value the driver follows as a link. */
  predicate IsLink(c: int) { 2 <= c < EOC_MIN && c != BAD }

  /** Links never lead past the end of the table. */
  ghost predicate Inside(fat: Table)
  {
    forall c :: 0 <= c < |fat| && IsLink(fat[c]) ==> fat[c] < |fat|
  }

  // ----- free clusters -----

  /** The free clusters from `c` up to `top`, in order. */
  function FreeList(fat: Table, c: nat, top: nat): (r: seq<nat>)
    requires c <= top <= |fat|
    ensures forall i :: 0 <= i < |r| ==> c <= r[i] < top && fat[r[i]] == FREE
    ensures forall i, j :: 0 <= i < j < |r| ==> r[i] < r[j]
    ensures forall x :: c <= x < top && fat[x] == FREE ==> x in r
    decreases top - c
  {
    if c == top then [] else if fat[c] == FREE then [c] + FreeList(fat, c + 1, top) else FreeList(fat, c + 1, top)
  }

  /** A table with fewer free clusters at the front has the rest of the list. */
  lemma {:induction false} FreeListDrops(fat: Table, x: nat, v: Half, c: nat, top: nat)
    requires c <= top <= |fat| && v != FREE
    requires FreeList(fat, c, top) != [] && x == FreeList(fat, c, top)[0]
    ensures FreeList(fat[x := v], c, top) == FreeList(fat, c, top)[1..]
    decreases top - c
  {
    if fat[c] == FREE {
      assert x == c;
      FreeListSame(fat, fat[x := v], c + 1, top);
    } else {
      FreeListDrops(fat, x, v, c + 1, top);
    }
  }

  lemma {:induction false} FreeListSame(fat: Table, fat1: Table, c: nat, top: nat)
    requires c <= top <= |fat| == |fat1| && forall x :: c <= x < top ==> (fat[x] == FREE <==> fat1[x] == FREE)
    ensures FreeList(fat, c, top) == FreeList(fat1, c, top)
    decreases top - c
  {
    if c < top { FreeListSame(fat, fat1, c + 1, top); }
  }

  // ----- chains -----

  /** The sequence `cs` is a chain: each cluster links to the next one, the last one ends it. */
  ghost predicate IsChain(fat: Table, cs: seq<nat>, top: nat)
  {
    && top <= |fat| && top <= BAD
    && (forall i :: 0 <= i < |cs| ==> 2 <= cs[i] < top)
    && (forall i, j :: 0 <= i < j < |cs| ==> cs[i] != cs[j])
    && (forall i :: 0 <= i < |cs| - 1 ==> fat[cs[i]] == cs[i + 1])
    && (cs != [] ==> fat[cs[|cs| - 1]] >= EOC_MIN)
  }

  /** The table after the clusters `cs` have been allocated and linked one after the other. */
  function Linked(fat: Table, cs: seq<nat>): (r: Table)
    requires forall i :: 0 <= i < |cs| ==> cs[i] < |fat| && cs[i] < 0x1_0000
    ensures |r| == |fat|
  {
    if cs == [] then fat
    else
      var last := |cs| - 1;
      var taken := Linked(fat, cs[..last])[cs[last] := EOC_MAX];
      if last == 0 then taken else taken[cs[last - 1] := cs[last]]
  }

  ghost predicate Distinct(cs: seq<nat>) { forall i, j :: 0 <= i < j < |cs| ==> cs[i] != cs[j] }

  /** Linking makes a chain and touches nothing else. */
  lemma {:induction false} LinkedIs(fat: Table, cs: seq<nat>)
    requires Distinct(cs) && forall i :: 0 <= i < |cs| ==> cs[i] < |fat| && cs[i] < 0x1_0000
    ensures forall i :: 0 <= i < |cs| - 1 ==> Linked(fat, cs)[cs[i]] == cs[i + 1]
    ensures cs != [] ==> Linked(fat, cs)[cs[|cs| - 1]] == EOC_MAX
    ensures forall c :: 0 <= c < |fat| && c !in cs ==> Linked(fat, cs)[c] == fat[c]
  {
    if cs != [] {
      var last := |cs| - 1;
      var front := cs[..last];
      LinkedIs(fat, front);
      var r := Linked(fat, cs);
      forall i | 0 <= i < last
        ensures r[cs[i]] == cs[i + 1]
      {
        assert front[i] == cs[i];
        if i < last - 1 { assert front[i + 1] == cs[i + 1]; }
      }
      forall c | 0 <= c < |fat| && c !in cs
        ensures r[c] == fat[c]
      {
        assert c !in front;
      }
    }
  }

  // ----- freeing -----

  function NonZero(fat: Table): nat
  {
    if fat == [] then 0 else (if fat[0] == 0 then 0 else 1) + NonZero(fat[1..])
  }

  lemma {:induction false} NonZeroDrops(fat: Table, c: nat)
    requires c < |fat| && fat[c] != 0
    ensures NonZero(fat[c := 0]) == NonZero(fat) - 1
    decreases fat
  {
    if c == 0 {
      assert fat[c := 0][1..] == fat[1..];
    } else {
      assert fat[c := 0][1..] == fat[1..][c - 1 := 0];
      NonZeroDrops(fat[1..], c - 1);
    }
  }

  /** Freeing follows links and clears each entry it meets. It ends on every table, cyclic
      or cross-linked: a cleared entry is not a link, so each step clears a new one. */
  function Freed(fat: Table, c: Half): (r: Table)
    requires IsLink(c) ==> c < |fat|
    requires Inside(fat)
    ensures |r| == |fat| && Inside(r)
    decreases NonZero(fat)
  {
    if !IsLink(c) then fat
    else if fat[c] == 0 then fat
    else NonZeroDrops(fat, c); Freed(fat[c := 0], fat[c])
  }

  /** Without its first cluster a chain is a chain. */
  lemma ChainTail(fat: Table, cs: seq<nat>, top: nat)
    requires IsChain(fat, cs, top) && |cs| > 1
    ensures fat[cs[0]] == cs[1] && IsChain(fat[cs[0] := 0], cs[1..], top) && cs[0] !in cs[1..]
  {
    var tail, fat1 := cs[1..], fat[cs[0] := 0];
    forall i | 0 <= i < |tail| - 1
      ensures fat1[tail[i]] == tail[i + 1]
    {
      assert tail[i] == cs[i + 1] && tail[i] != cs[0];
    }
    assert tail[|tail| - 1] == cs[|cs| - 1] != cs[0];
  }

  /** Freeing a chain clears exactly the clusters of the chain. */
  lemma {:induction false} FreedChain(fat: Table, cs: seq<nat>, top: nat)
    requires IsChain(fat, cs, top) && Inside(fat) && cs != []
    ensures IsLink(cs[0]) && cs[0] < |fat|
    ensures forall c :: 0 <= c < |fat| ==> Freed(fat, cs[0])[c] == if c in cs then 0 else fat[c]
    decreases |cs|
  {
    hide IsChain;
    ChainFacts(fat, cs, top);
    var first, fat1 := cs[0], fat[cs[0] := 0];
    if |cs| == 1 {
      assert Freed(fat, first) == Freed(fat1, fat[first]) == fat1;
    } else {
      ChainTail(fat, cs, top);
      var tail := cs[1..];
      FreedStep(fat, first);
      FreedChain(fat1, tail, top);
      assert cs == [first] + tail;
    }
  }

  lemma ChainFacts(fat: Table, cs: seq<nat>, top: nat)
    requires IsChain(fat, cs, top) && cs != []
    ensures IsLink(cs[0]) && cs[0] < |fat| && fat[cs[0]] != 0 && (|cs| == 1 ==> !IsLink(fat[cs[0]]))
  {
    if |cs| > 1 { assert fat[cs[0]] == cs[1]; }
  }

  lemma FreedStep(fat: Table, c: Half)
    requires IsLink(c) && c < |fat| && Inside(fat) && fat[c] != 0
    ensures Inside(fat[c := 0]) && Freed(fat, c) == Freed(fat[c := 0], fat[c])
  {
  }

  /** Allocating clusters and freeing them again restores the table. */
  lemma LinkedFreed(fat: Table, cs: seq<nat>, top: nat)
    requires Inside(fat) && top <= |fat| && top <= BAD && Distinct(cs) && cs != []
    requires forall i :: 0 <= i < |cs| ==> 2 <= cs[i] < top && fat[cs[i]] == FREE
    ensures IsChain(Linked(fat, cs), cs, top) && Inside(Linked(fat, cs)) && Freed(Linked(fat, cs), cs[0]) == fat
  {
    LinkedIs(fat, cs);
    LinkedInside(fat, cs);
    var t := Linked(fat, cs);
    FreedChain(t, cs, top);
    forall c | 0 <= c < |fat|
      ensures Freed(t, cs[0])[c] == fat[c]
    {
      if c in cs { var i :| 0 <= i < |cs| && cs[i] == c; }
    }
  }

  lemma LinkedInside(fat: Table, cs: seq<nat>)
    requires Inside(fat) && Distinct(cs) && forall i :: 0 <= i < |cs| ==> cs[i] < |fat| && cs[i] < 0x1_0000
    ensures Inside(Linked(fat, cs))
  {
    LinkedIs(fat, cs);
    var t := Linked(fat, cs);
    forall c | 0 <= c < |t| && IsLink(t[c])
      ensures t[c] < |t|
    {
      if c in cs {
        var i :| 0 <= i < |cs| && cs[i] == c;
        assert i < |cs| - 1 ==> t[c] == cs[i + 1];
      } else {
        assert t[c] == fat[c];
      }
    }
  }

  /** Linking one more cluster. */
  lemma LinkLast(fat: Table, free: seq<nat>, i: nat)
    requires i < |free| && forall k :: 0 <= k < |free| ==> free[k] < |fat| && free[k] < 0x1_0000
    ensures var taken := Linked(fat, free[..i])[free[i] := EOC_MAX];
      Linked(fat, free[..i + 1]) == if i == 0 then taken else taken[free[i - 1] := free[i]]
  {
    assert free[..i + 1][..i] == free[..i];
  }

  /** The list of free clusters loses the first one when it is taken and linked to the one before. */
  lemma FreeAfter(fat: Table, cs: seq<nat>, rest: seq<nat>, top: nat)
    requires 2 <= top <= |fat| && top <= BAD && Distinct(cs) && forall k :: 0 <= k < |cs| ==> 2 <= cs[k] < top
    requires rest != [] && 2 <= rest[0] < top && FreeList(Linked(fat, cs), 2, top) == rest
    ensures var taken := Linked(fat, cs)[rest[0] := EOC_MAX];
      FreeList(if cs == [] then taken else taken[cs[|cs| - 1] := rest[0]], 2, top) == rest[1..]
  {
    hide FreeList;
    var before := Linked(fat, cs);
    var taken := before[rest[0] := EOC_MAX];
    FreeListDrops(before, rest[0], EOC_MAX, 2, top);
    if cs != [] {
      LinkedIs(fat, cs);
      FreeListSame(taken, taken[cs[|cs| - 1] := rest[0]], 2, top);
    }
  }

  /** Ending a chain that is already ended changes nothing. */
  lemma EndAgain(fat: Table, cs: seq<nat>)
    requires cs != [] && Distinct(cs) && forall i :: 0 <= i < |cs| ==> cs[i] < |fat| && cs[i] < 0x1_0000
    ensures Linked(fat, cs)[cs[|cs| - 1] := EOC_MAX] == Linked(fat, cs)
  {
    LinkedIs(fat, cs);
  }

  /** `cur` is the table `fat` after its first `i` free clusters have been taken and linked. */
  ghost predicate Taken(fat: Table, top: nat, i: nat, cur: Table)
    requires 2 <= top <= |fat| && top <= BAD
  {
    var free := FreeList(fat, 2, top);
    i <= |free| && cur == Linked(fat, free[..i]) && FreeList(cur, 2, top) == free[i..]
  }

  /** The cluster taken at step i. */
  function Nth(fat: Table, top: nat, i: nat): nat
    requires 2 <= top <= |fat|
  {
    var free := FreeList(fat, 2, top);
    if i < |free| then free[i] else 0
  }

  lemma TakenStart(fat: Table, top: nat)
    requires 2 <= top <= |fat| && top <= BAD
    ensures Taken(fat, top, 0, fat)
  {
    hide FreeList;
    var free := FreeList(fat, 2, top);
    assert free[..0] == [] && free[0..] == free;
  }

  /** The next free cluster is the next of the list; taking it is one more step. */
  lemma TakenStep(fat: Table, top: nat, i: nat, cur: Table)
    requires 2 <= top <= |fat| && top <= BAD && Taken(fat, top, i, cur)
    ensures |cur| == |fat| && FirstFree(cur, top) == Nth(fat, top, i)
    ensures var c := Nth(fat, top, i);
      c != 0 ==> 2 <= c < top && (var taken := cur[c := EOC_MAX];
        if i == 0 then Taken(fat, top, i + 1, taken)
        else 2 <= Nth(fat, top, i - 1) < top && Taken(fat, top, i + 1, taken[Nth(fat, top, i - 1) := c]))
  {
    hide FreeList, Linked, Distinct;
    var free := FreeList(fat, 2, top);
    if i < |free| {
      FreePrefix(fat, top, i);
      LinkLast(fat, free, i);
      FreeAfter(fat, free[..i], free[i..], top);
      Suffix(free, i);
    }
  }

  lemma Suffix(s: seq<nat>, i: nat)
    requires i < |s|
    ensures s[i..] != [] && s[i..][0] == s[i] && s[i..][1..] == s[i + 1..] && (i > 0 ==> s[..i][i - 1] == s[i - 1])
  {
  }

  lemma FreePrefix(fat: Table, top: nat, i: nat)
    requires 2 <= top <= |fat| && top <= BAD && i < |FreeList(fat, 2, top)|
    ensures var free := FreeList(fat, 2, top);
      && Distinct(free[..i]) && (forall k :: 0 <= k < i ==> 2 <= free[..i][k] < top) && 2 <= free[i] < top
      && (forall k :: 0 <= k < |free| ==> free[k] < |fat| && free[k] < 0x1_0000)
  {
    hide FreeList;
  }

  /** The free cluster that is allocated next, 0 if there is none. */
  function FirstFree(fat: Table, top: nat): nat
    requires 2 <= top <= |fat|
  {
    var free := FreeList(fat, 2, top);
    if free == [] then 0 else free[0]
  }

  lemma FreeListStep(fat: Table, c: nat, top: nat)
    requires c < top <= |fat|
    ensures var rest := FreeList(fat, c + 1, top); FreeList(fat, c, top) == if fat[c] == FREE then [c] + rest else rest
  {
  }

  lemma FreeListEnd(fat: Table, top: nat)
    requires top <= |fat|
    ensures FreeList(fat, top, top) == []
  {
  }

  /** On any table: freeing only clears entries, clears the first one, and clears what a cleared entry linked to. */
  lemma {:induction false} FreedClears(fat: Table, c: Half)
    requires (IsLink(c) ==> c < |fat|) && Inside(fat)
    ensures var r := Freed(fat, c);
      && (forall x :: 0 <= x < |fat| ==> r[x] == fat[x] || r[x] == 0) && (IsLink(c) ==> r[c] == 0)
      && (forall x :: 0 <= x < |fat| && r[x] != fat[x] && IsLink(fat[x]) ==> r[fat[x]] == 0)
    decreases NonZero(fat)
  {
    if IsLink(c) && fat[c] != 0 {
      NonZeroDrops(fat, c);
      FreedStep(fat, c);
      FreedClears(fat[c := 0], fat[c]);
      var r := Freed(fat, c);
      forall x | 0 <= x < |fat| && r[x] != fat[x] && IsLink(fat[x])
        ensures r[fat[x]] == 0
      {
        if x != c { assert fat[c := 0][x] == fat[x]; }
      }
    }
  }
}
