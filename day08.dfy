/** Day 8: junction boxes in space joined closest pair first into networks (circuits). */
module Day08 {
  import opened Wrappers
  import opened Decimal
  import Text
  import Seqs

  datatype Position = Position(x: int, y: int, z: int)

  datatype JunctionBox = JunctionBox(position: Position)

  /** A candidate connection between the boxes at `indexA` and `indexB`. */
  datatype JunctionDistance = JunctionDistance(indexA: nat, indexB: nat, distanceSquared: int)

  datatype BoxError = NotANumber | MissingCoordinate

  // ---------------------------------------------------------------------------
  // Parsing

  function ParseCoordinate(s: string): Option<int> {
    Text.ParseInt(s, Text.I64_MIN, Text.I64_MAX)
  }

  /** `to_junction_box`: the line's comma-separated fields as the box's coordinates. */
  function ParseBox(line: string): Result<JunctionBox, BoxError> {
    ParseFields(Text.Split(line, ','))
  }

  /** The first three fields as x, y and z, read in that order; a missing field or one that
      is not an `i64` panics. */
  function ParseFields(c: seq<string>): (r: Result<JunctionBox, BoxError>)
    requires |c| >= 1
    ensures r.Ok? ==> |c| >= 3
    ensures r.Ok? ==> Some(r.value.position.x) == ParseCoordinate(c[0])
    ensures r.Ok? ==> Some(r.value.position.y) == ParseCoordinate(c[1])
    ensures r.Ok? ==> Some(r.value.position.z) == ParseCoordinate(c[2])
  {
    match ParseCoordinate(c[0])
    case None => Err(NotANumber)
    case Some(x) =>
      if |c| < 2 then Err(MissingCoordinate)
      else
        match ParseCoordinate(c[1])
        case None => Err(NotANumber)
        case Some(y) =>
          if |c| < 3 then Err(MissingCoordinate)
          else
            match ParseCoordinate(c[2])
            case None => Err(NotANumber)
            case Some(z) => Ok(JunctionBox(Position(x, y, z)))
  }

  /** With the fields joined by commas, `ParseBox` sees exactly those fields. */
  lemma ParseBoxJoin(fields: seq<string>)
    requires |fields| >= 1 && forall i :: 0 <= i < |fields| ==> ',' !in fields[i]
    ensures ParseBox(Text.Join(fields, ',')) == ParseFields(fields)
  {
    Text.SplitJoin(fields, ',');
  }

  /** The three coordinates of an `i64` position written with commas between them, followed
      by any further fields, parse back as the box at that position. */
  lemma ParseBoxRendered(p: Position, extra: seq<string>)
    requires Text.I64_MIN <= p.x <= Text.I64_MAX
    requires Text.I64_MIN <= p.y <= Text.I64_MAX
    requires Text.I64_MIN <= p.z <= Text.I64_MAX
    ensures ParseFields([Text.Render(p.x), Text.Render(p.y), Text.Render(p.z)] + extra) == Ok(JunctionBox(p))
  {
    var c := [Text.Render(p.x), Text.Render(p.y), Text.Render(p.z)] + extra;
    assert c[0] == Text.Render(p.x) && c[1] == Text.Render(p.y) && c[2] == Text.Render(p.z);
    CoordinateRendered(p.x);
    CoordinateRendered(p.y);
    CoordinateRendered(p.z);
    ParseFieldsValues(c, p);
  }

  /** An `i64` written in decimal reads back as itself. */
  lemma CoordinateRendered(n: int)
    requires Text.I64_MIN <= n <= Text.I64_MAX
    ensures ParseCoordinate(Text.Render(n)) == Some(n)
  {
    Text.ParseRendered(n, Text.I64_MIN, Text.I64_MAX);
  }

  /** Fields whose first three read as the coordinates of `p` give the box at `p`. */
  lemma ParseFieldsValues(c: seq<string>, p: Position)
    requires |c| >= 3
    requires ParseCoordinate(c[0]) == Some(p.x) && ParseCoordinate(c[1]) == Some(p.y)
    requires ParseCoordinate(c[2]) == Some(p.z)
    ensures ParseFields(c) == Ok(JunctionBox(p))
  {
  }

  /** `to_junction_box` reads back the line `"x,y,z"` written for an `i64` position. */
  lemma ParseBoxLine(p: Position)
    requires Text.I64_MIN <= p.x <= Text.I64_MAX
    requires Text.I64_MIN <= p.y <= Text.I64_MAX
    requires Text.I64_MIN <= p.z <= Text.I64_MAX
    ensures ParseBox(Text.Join([Text.Render(p.x), Text.Render(p.y), Text.Render(p.z)], ',')) == Ok(JunctionBox(p))
  {
    var fields := [Text.Render(p.x), Text.Render(p.y), Text.Render(p.z)];
    Text.RenderWithout(p.x, ',');
    Text.RenderWithout(p.y, ',');
    Text.RenderWithout(p.z, ',');
    ParseBoxJoin(fields);
    ParseBoxRendered(p, []);
    assert fields + [] == fields;
  }

  /** A line with fewer than three fields is refused. */
  lemma ParseBoxFewFields(fields: seq<string>)
    requires 1 <= |fields| < 3
    ensures ParseFields(fields).Err?
  {
  }

  // ---------------------------------------------------------------------------
  // A network: a set of box indices

  class JunctionNetwork {
    var indices: set<nat>

    constructor (indices: set<nat>)
      ensures this.indices == indices
    {
      this.indices := indices;
    }

    /** `contains`. */
    predicate Contains(index: nat)
      reads this
    {
      index in indices
    }

    /** `size`. */
    function Size(): nat
      reads this
    {
      |indices|
    }

    /** `add`: afterwards the index is in the network, which grew by at most that index. */
    method Add(index: nat)
      modifies this
      ensures indices == old(indices) + {index}
      ensures Contains(index) && old(Size()) <= Size() <= old(Size()) + 1
      ensures Size() == old(Size()) <==> old(Contains(index))
    {
      if !Contains(index) {
        indices := indices + {index};
      }
    }

    /** `merge_from`: every index of `other` is added; `other` is left as it was. */
    method MergeFrom(other: JunctionNetwork)
      requires other != this
      modifies this
      ensures indices == old(indices) + other.indices
      ensures other.indices == old(other.indices)
    {
      var rest := other.indices;
      while rest != {}
        invariant rest <= other.indices
        invariant indices == old(indices) + (other.indices - rest)
        decreases rest
      {
        var index :| index in rest;
        if !Contains(index) {
          Add(index);
        }
        rest := rest - {index};
      }
    }
  }

  /** Adding an index twice is adding it once. */
  lemma AddIdempotent(indices: set<nat>, index: nat)
    ensures indices + {index} + {index} == indices + {index}
    ensures |indices + {index}| <= |indices| + 1
  {
  }

  // ---------------------------------------------------------------------------
  // One connection, on the index sets of the networks

  predicate Touches(s: set<nat>, a: nat, b: nat) {
    a in s || b in s
  }

  /** No index is in two networks. */
  predicate Disjoint(sets: seq<set<nat>>) {
    forall i, j :: 0 <= i < |sets| && 0 <= j < |sets| && i != j ==> sets[i] * sets[j] == {}
  }

  predicate NoneEmpty(sets: seq<set<nat>>) {
    forall i :: 0 <= i < |sets| ==> sets[i] != {}
  }

  /** Every index in some network. */
  function Union(sets: seq<set<nat>>): (u: set<nat>)
    ensures forall i :: 0 <= i < |sets| ==> sets[i] <= u
  {
    if sets == [] then {} else Union(sets[..|sets| - 1]) + sets[|sets| - 1]
  }

  lemma {:induction false} UnionMember(sets: seq<set<nat>>, x: nat)
    requires x in Union(sets)
    ensures exists k :: 0 <= k < |sets| && x in sets[k]
  {
    var n := |sets|;
    if x !in sets[n - 1] {
      UnionMember(sets[..n - 1], x);
      var k :| 0 <= k < n - 1 && x in sets[..n - 1][k];
      assert x in sets[k];
    }
  }

  function Remove(sets: seq<set<nat>>, j: nat): (r: seq<set<nat>>)
    requires j < |sets|
    ensures |r| == |sets| - 1
    ensures forall k :: 0 <= k < j ==> r[k] == sets[k]
    ensures forall k :: j <= k < |r| ==> r[k] == sets[k + 1]
  {
    sets[..j] + sets[j + 1..]
  }

  /** The loop over `junction_networks` for the connection `a`-`b`, from `id` on: the first
      network touching an endpoint takes both endpoints and becomes the primary one; the next
      one touching an endpoint is removed and merged into the primary one, and the loop stops. */
  function Scan(sets: seq<set<nat>>, a: nat, b: nat, id: nat, primary: Option<nat>): (r: (seq<set<nat>>, Option<nat>))
    requires id <= |sets|
    requires primary.Some? ==> primary.value < id
    ensures r.1.Some? ==> r.1.value < |r.0|
    decreases |sets| - id
  {
    if id == |sets| then (sets, primary)
    else if Touches(sets[id], a, b) then
      match primary
      case Some(p) => (Remove(sets, id)[p := sets[p] + sets[id]], primary)
      case None => Scan(sets[id := sets[id] + {a, b}], a, b, id + 1, Some(id))
    else Scan(sets, a, b, id + 1, primary)
  }

  /** The networks after connecting `a` and `b`: a new network `{a, b}` when no network
      touched either endpoint. */
  function Connect(sets: seq<set<nat>>, a: nat, b: nat): seq<set<nat>> {
    var (r, primary) := Scan(sets, a, b, 0, None);
    if primary.None? then r + [{a, b}] else r
  }

  /** Networks from `id` on that touch neither endpoint are passed over. */
  lemma {:induction false} ScanSkip(sets: seq<set<nat>>, a: nat, b: nat, id: nat, i: nat, primary: Option<nat>)
    requires id <= i <= |sets|
    requires primary.Some? ==> primary.value < id
    requires forall k :: id <= k < i ==> !Touches(sets[k], a, b)
    ensures Scan(sets, a, b, id, primary) == Scan(sets, a, b, i, primary)
    decreases i - id
  {
    if id < i {
      ScanSkip(sets, a, b, id + 1, i, primary);
    }
  }

  /** Of three sets touching the endpoints, two share an endpoint. */
  lemma ThreeTouch(s1: set<nat>, s2: set<nat>, s3: set<nat>, a: nat, b: nat)
    ensures Touches(s1, a, b) && Touches(s2, a, b) && Touches(s3, a, b) ==>
      s1 * s2 != {} || s1 * s3 != {} || s2 * s3 != {}
  {
    if a in s1 && a in s2 {
      assert a in s1 * s2;
    } else if b in s1 && b in s2 {
      assert b in s1 * s2;
    } else if a in s3 && (a in s1 || a in s2) {
      assert a in s1 * s3 || a in s2 * s3;
    } else if b in s3 && (b in s1 || b in s2) {
      assert b in s1 * s3 || b in s2 * s3;
    }
  }

  /** In disjoint networks at most two touch the endpoints. */
  lemma AtMostTwo(sets: seq<set<nat>>, a: nat, b: nat, i: nat, j: nat, k: nat)
    requires Disjoint(sets) && i < |sets| && j < |sets| && k < |sets|
    requires i != j && i != k && j != k
    requires Touches(sets[i], a, b) && Touches(sets[j], a, b)
    ensures !Touches(sets[k], a, b)
  {
    ThreeTouch(sets[i], sets[j], sets[k], a, b);
  }

  predicate Untouched(sets: seq<set<nat>>, a: nat, b: nat, lo: nat, hi: nat)
    requires lo <= hi <= |sets|
  {
    forall k :: lo <= k < hi ==> !Touches(sets[k], a, b)
  }

  /** No network touched: a new network `{a, b}` is added at the end. */
  lemma ConnectNone(sets: seq<set<nat>>, a: nat, b: nat)
    requires Untouched(sets, a, b, 0, |sets|)
    ensures Scan(sets, a, b, 0, None) == (sets, None)
    ensures Connect(sets, a, b) == sets + [{a, b}]
  {
    ScanSkip(sets, a, b, 0, |sets|, None);
  }

  /** One network touched: it takes both endpoints. */
  lemma ConnectOne(sets: seq<set<nat>>, a: nat, b: nat, i: nat)
    requires i < |sets| && Touches(sets[i], a, b)
    requires Untouched(sets, a, b, 0, i) && Untouched(sets, a, b, i + 1, |sets|)
    ensures Scan(sets, a, b, 0, None).1 == Some(i)
    ensures Connect(sets, a, b) == sets[i := sets[i] + {a, b}]
  {
    ScanSkip(sets, a, b, 0, i, None);
    var s1 := sets[i := sets[i] + {a, b}];
    assert Untouched(s1, a, b, i + 1, |s1|);
    ScanSkip(s1, a, b, i + 1, |s1|, Some(i));
  }

  /** Two networks touched: the second is removed and merged into the first. */
  lemma ConnectTwo(sets: seq<set<nat>>, a: nat, b: nat, i: nat, j: nat)
    requires Disjoint(sets) && i < j < |sets|
    requires Touches(sets[i], a, b) && Touches(sets[j], a, b)
    requires Untouched(sets, a, b, 0, i)
    ensures Scan(sets, a, b, 0, None).1 == Some(i)
    ensures Connect(sets, a, b) == Remove(sets, j)[i := sets[i] + {a, b} + sets[j]]
  {
    ScanSkip(sets, a, b, 0, i, None);
    var s1 := sets[i := sets[i] + {a, b}];
    forall k | i < k < j
      ensures !Touches(s1[k], a, b)
    {
      AtMostTwo(sets, a, b, i, j, k);
    }
    ScanSkip(s1, a, b, i + 1, j, Some(i));
    assert Remove(s1, j) == Remove(sets, j)[i := s1[i]];
  }

  /** The first network from `lo` on that touches an endpoint. */
  function FirstTouch(sets: seq<set<nat>>, a: nat, b: nat, lo: nat): (r: Option<nat>)
    requires lo <= |sets|
    ensures r.None? ==> Untouched(sets, a, b, lo, |sets|)
    ensures r.Some? ==> lo <= r.value < |sets| && Touches(sets[r.value], a, b) && Untouched(sets, a, b, lo, r.value)
    decreases |sets| - lo
  {
    if lo == |sets| then None
    else if Touches(sets[lo], a, b) then Some(lo)
    else FirstTouch(sets, a, b, lo + 1)
  }

  lemma {:induction false} UnionGrow(sets: seq<set<nat>>, i: nat, e: set<nat>)
    requires i < |sets|
    ensures Union(sets[i := sets[i] + e]) == Union(sets) + e
  {
    var n := |sets|;
    var t := sets[i := sets[i] + e];
    if i == n - 1 {
      assert t[..n - 1] == sets[..n - 1];
    } else {
      assert t[..n - 1] == sets[..n - 1][i := sets[i] + e];
      UnionGrow(sets[..n - 1], i, e);
    }
  }

  lemma {:induction false} UnionRemove(sets: seq<set<nat>>, j: nat)
    requires j < |sets|
    ensures Union(Remove(sets, j)) + sets[j] == Union(sets)
  {
    var n := |sets|;
    if j == n - 1 {
      assert Remove(sets, j) == sets[..n - 1];
    } else {
      UnionRemove(sets[..n - 1], j);
      assert Remove(sets, j) == Remove(sets[..n - 1], j) + [sets[n - 1]];
      assert (Remove(sets[..n - 1], j) + [sets[n - 1]])[..n - 2] == Remove(sets[..n - 1], j);
    }
  }

  lemma UnionAppend(sets: seq<set<nat>>, e: set<nat>)
    ensures Union(sets + [e]) == Union(sets) + e
  {
    assert (sets + [e])[..|sets|] == sets;
  }

  /** One connection keeps the networks disjoint and non-empty, adds exactly the two endpoints
      to the boxes in networks, and leaves both endpoints in one network; the number of
      networks grows (by the new network `{a, b}`) exactly when no network touched either
      endpoint. */
  lemma Connected(sets: seq<set<nat>>, a: nat, b: nat) returns (k: nat)
    requires Disjoint(sets) && NoneEmpty(sets)
    ensures var r := Connect(sets, a, b);
      Disjoint(r) && NoneEmpty(r) && Union(r) == Union(sets) + {a, b}
      && k < |r| && a in r[k] && b in r[k]
      && (|r| == |sets| + 1 <==> Untouched(sets, a, b, 0, |sets|))
      && (Scan(sets, a, b, 0, None).1.None? <==> Untouched(sets, a, b, 0, |sets|))
  {
    match FirstTouch(sets, a, b, 0) {
      case None =>
        ConnectedNone(sets, a, b);
        k := |sets|;
      case Some(i) =>
        k := i;
        match FirstTouch(sets, a, b, i + 1) {
          case None =>
            ConnectedOne(sets, a, b, i);
          case Some(j) =>
            ConnectedTwo(sets, a, b, i, j);
        }
    }
  }

  lemma ConnectedNone(sets: seq<set<nat>>, a: nat, b: nat)
    requires Disjoint(sets) && NoneEmpty(sets) && Untouched(sets, a, b, 0, |sets|)
    ensures var r := Connect(sets, a, b);
      Disjoint(r) && NoneEmpty(r) && Union(r) == Union(sets) + {a, b}
      && |sets| < |r| && a in r[|sets|] && b in r[|sets|] && |r| == |sets| + 1
      && Scan(sets, a, b, 0, None).1.None?
  {
    ConnectNone(sets, a, b);
    UnionAppend(sets, {a, b});
  }

  lemma ConnectedOne(sets: seq<set<nat>>, a: nat, b: nat, i: nat)
    requires Disjoint(sets) && NoneEmpty(sets)
    requires i < |sets| && Touches(sets[i], a, b)
    requires Untouched(sets, a, b, 0, i) && Untouched(sets, a, b, i + 1, |sets|)
    ensures var r := Connect(sets, a, b);
      Disjoint(r) && NoneEmpty(r) && Union(r) == Union(sets) + {a, b}
      && i < |r| && a in r[i] && b in r[i] && |r| == |sets|
      && Scan(sets, a, b, 0, None).1.Some?
  {
    ConnectOne(sets, a, b, i);
    UnionGrow(sets, i, {a, b});
    var r := Connect(sets, a, b);
    forall p, q | 0 <= p < |r| && 0 <= q < |r| && p != q
      ensures r[p] * r[q] == {}
    {
      if p != i && q != i {
        assert r[p] * r[q] == sets[p] * sets[q];
      }
    }
  }

  lemma ConnectedTwo(sets: seq<set<nat>>, a: nat, b: nat, i: nat, j: nat)
    requires Disjoint(sets) && NoneEmpty(sets) && i < j < |sets|
    requires Touches(sets[i], a, b) && Touches(sets[j], a, b)
    requires Untouched(sets, a, b, 0, i)
    ensures var r := Connect(sets, a, b);
      Disjoint(r) && NoneEmpty(r) && Union(r) == Union(sets) + {a, b}
      && i < |r| && a in r[i] && b in r[i] && |r| == |sets| - 1
      && Scan(sets, a, b, 0, None).1.Some?
  {
    ConnectTwo(sets, a, b, i, j);
    var rest := Remove(sets, j);
    var e := {a, b} + sets[j];
    var r := rest[i := rest[i] + e];
    assert rest[i] == sets[i];
    assert rest[i] + e == sets[i] + {a, b} + sets[j];
    assert Connect(sets, a, b) == r;
    UnionRemove(sets, j);
    UnionGrow(rest, i, e);
    forall p, q | 0 <= p < |r| && 0 <= q < |r| && p != q
      ensures r[p] * r[q] == {}
    {
      ConnectTwoDisjoint(sets, a, b, i, j, p, q);
    }
  }

  /** The two networks of the merged result at positions `p` and `q` share nothing. */
  lemma ConnectTwoDisjoint(sets: seq<set<nat>>, a: nat, b: nat, i: nat, j: nat, p: nat, q: nat)
    requires Disjoint(sets) && i < j < |sets|
    requires Touches(sets[i], a, b) && Touches(sets[j], a, b)
    requires p < |sets| - 1 && q < |sets| - 1 && p != q
    ensures var r := Remove(sets, j)[i := sets[i] + {a, b} + sets[j]]; r[p] * r[q] == {}
  {
    var r := Remove(sets, j)[i := sets[i] + {a, b} + sets[j]];
    var p' := if p < j then p else p + 1;
    var q' := if q < j then q else q + 1;
    if p == i {
      AtMostTwo(sets, a, b, i, j, q');
      assert r[q] == sets[q'];
    } else if q == i {
      AtMostTwo(sets, a, b, i, j, p');
      assert r[p] == sets[p'];
    } else {
      assert r[p] == sets[p'] && r[q] == sets[q'];
    }
  }

  // ---------------------------------------------------------------------------
  // Sorting the networks by size, largest first

  /** `usize::MAX - e.indices.len()`: ascending keys, descending sizes. */
  function SizeKey(s: set<nat>): int {
    Text.USIZE_MAX - |s|
  }

  /** `junction_networks.sort_by_key(|e| usize::MAX - e.indices.len())`. */
  function SortBySize(sets: seq<set<nat>>): seq<set<nat>> {
    Seqs.SortByKey(sets, SizeKey)
  }

  /** The sorted networks are the same networks, largest first. */
  lemma SortBySizeOrder(sets: seq<set<nat>>)
    ensures var r := SortBySize(sets);
      multiset(r) == multiset(sets) && forall i, j :: 0 <= i < j < |r| ==> |r[i]| >= |r[j]|
  {
    var r := SortBySize(sets);
    forall i, j | 0 <= i < j < |r|
      ensures |r[i]| >= |r[j]|
    {
      assert SizeKey(r[i]) <= SizeKey(r[j]);
    }
  }

  /** A network in front of disjoint networks it shares nothing with. */
  lemma ConsDisjoint(h: set<nat>, t: seq<set<nat>>)
    requires Disjoint(t) && forall k :: 0 <= k < |t| ==> h * t[k] == {}
    ensures Disjoint([h] + t)
  {
    var r := [h] + t;
    forall p, q | 0 <= p < |r| && 0 <= q < |r| && p != q
      ensures r[p] * r[q] == {}
    {
      if p > 0 && q > 0 {
        assert r[p] == t[p - 1] && r[q] == t[q - 1];
      } else if p == 0 {
        assert r[q] == t[q - 1];
      } else {
        assert r[p] == t[p - 1];
      }
    }
  }

  /** A network sharing nothing with any network of `t` shares nothing with any of a
      permutation of `t` with `x` added, when it shares nothing with `x` either. */
  lemma ApartFromAll(h: set<nat>, t: seq<set<nat>>, x: set<nat>, r: seq<set<nat>>)
    requires multiset(r) == multiset(t) + multiset{x}
    requires forall k :: 0 <= k < |t| ==> h * t[k] == {}
    requires h * x == {}
    ensures forall k :: 0 <= k < |r| ==> h * r[k] == {}
  {
    forall k | 0 <= k < |r|
      ensures h * r[k] == {}
    {
      assert r[k] in multiset(r);
      if r[k] != x {
        assert r[k] in multiset(t);
        var m :| 0 <= m < |t| && t[m] == r[k];
      }
    }
  }

  /** Inserting a network that shares nothing with the others keeps them disjoint. */
  lemma {:induction false} InsertDisjoint(t: seq<set<nat>>, x: set<nat>)
    requires Seqs.SortedByKey(t, SizeKey) && Disjoint(t)
    requires forall k :: 0 <= k < |t| ==> x * t[k] == {}
    ensures Disjoint(Seqs.InsertByKey(t, x, SizeKey))
  {
    if t == [] {
    } else if SizeKey(x) < SizeKey(t[0]) {
      ConsDisjoint(x, t);
    } else {
      var tail := t[1..];
      assert Disjoint(tail) && Seqs.SortedByKey(tail, SizeKey);
      InsertDisjoint(tail, x);
      var rest := Seqs.InsertByKey(tail, x, SizeKey);
      forall k | 0 <= k < |tail|
        ensures t[0] * tail[k] == {}
      {
        assert tail[k] == t[k + 1];
      }
      ApartFromAll(t[0], tail, x, rest);
      ConsDisjoint(t[0], rest);
    }
  }

  lemma ApartFromPermutation(h: set<nat>, t: seq<set<nat>>, r: seq<set<nat>>)
    requires multiset(r) == multiset(t)
    requires forall k :: 0 <= k < |t| ==> h * t[k] == {}
    ensures forall k :: 0 <= k < |r| ==> h * r[k] == {}
  {
    forall k | 0 <= k < |r|
      ensures h * r[k] == {}
    {
      assert r[k] in multiset(t);
      var m :| 0 <= m < |t| && t[m] == r[k];
    }
  }

  /** Sorting keeps the networks disjoint. */
  lemma {:induction false} SortDisjoint(sets: seq<set<nat>>)
    requires Disjoint(sets)
    ensures Disjoint(SortBySize(sets))
  {
    if sets != [] {
      var n := |sets|;
      var init := sets[..n - 1];
      var last := sets[n - 1];
      assert Disjoint(init);
      SortDisjoint(init);
      var t := SortBySize(init);
      forall k | 0 <= k < |init|
        ensures last * init[k] == {}
      {
        assert init[k] == sets[k];
      }
      ApartFromPermutation(last, init, t);
      InsertDisjoint(t, last);
      assert SortBySize(sets) == Seqs.InsertByKey(t, last, SizeKey);
    }
  }

  /** A permutation of the networks has the same boxes and no empty network when the
      original has none. */
  lemma PermutationUnion(a: seq<set<nat>>, b: seq<set<nat>>)
    requires multiset(a) == multiset(b)
    ensures Union(a) == Union(b)
    ensures NoneEmpty(a) ==> NoneEmpty(b)
  {
    forall x | x in Union(a)
      ensures x in Union(b)
    {
      UnionMember(a, x);
      var k :| 0 <= k < |a| && x in a[k];
      assert a[k] in multiset(b);
    }
    forall x | x in Union(b)
      ensures x in Union(a)
    {
      UnionMember(b, x);
      var k :| 0 <= k < |b| && x in b[k];
      assert b[k] in multiset(a);
    }
    if NoneEmpty(a) {
      forall k | 0 <= k < |b|
        ensures b[k] != {}
      {
        assert b[k] in multiset(a);
      }
    }
  }

  /** Sorting keeps every invariant of the networks. */
  lemma SortKeeps(sets: seq<set<nat>>)
    requires Disjoint(sets) && NoneEmpty(sets)
    ensures var r := SortBySize(sets); Disjoint(r) && NoneEmpty(r) && Union(r) == Union(sets) && |r| == |sets|
  {
    SortDisjoint(sets);
    PermutationUnion(sets, SortBySize(sets));
    assert |multiset(SortBySize(sets))| == |multiset(sets)|;
  }

  // ---------------------------------------------------------------------------
  // All boxes in one network

  /** The box indices `0..n`. */
  function Below(n: nat): (s: set<nat>)
    ensures forall i: nat :: i in s <==> i < n
    ensures |s| == n
  {
    if n == 0 then {} else Below(n - 1) + {n - 1}
  }

  lemma {:induction false} SubsetSize(a: set<nat>, b: set<nat>)
    requires a <= b
    ensures |a| <= |b| && (|a| == |b| ==> a == b)
    decreases |b|
  {
    if b != {} {
      var x :| x in b;
      SubsetSize(a - {x}, b - {x});
      if x in a {
        assert a == (a - {x}) + {x};
      } else {
        assert a == a - {x};
      }
    }
  }

  /** With disjoint non-empty networks over `n` boxes, the first network holds `n` boxes
      exactly when it is the only network and holds every box. */
  lemma FirstHoldsAll(sets: seq<set<nat>>, n: nat)
    requires Disjoint(sets) && NoneEmpty(sets) && Union(sets) <= Below(n) && sets != []
    ensures |sets[0]| == n <==> |sets| == 1 && sets[0] == Below(n)
  {
    if |sets[0]| == n {
      SubsetSize(sets[0], Below(n));
    }
  }

  // ---------------------------------------------------------------------------
  // Candidate connections

  /** Only pairs at most this far apart (squared) are candidates. */
  const MAX_DISTANCE_SQUARED: int := 200000000

  function DistanceSquared(p: Position, q: Position): (d: int)
    ensures d >= 0
  {
    (p.x - q.x) * (p.x - q.x) + (p.y - q.y) * (p.y - q.y) + (p.z - q.z) * (p.z - q.z)
  }

  /** The candidates `index_a`-`index_b` for `index_b` in `index_a + 1..m`, in that order. */
  function RowRecords(boxes: seq<JunctionBox>, i: nat, m: nat): seq<JunctionDistance>
    requires i < m <= |boxes|
    decreases m
  {
    if m == i + 1 then []
    else
      var d := DistanceSquared(boxes[i].position, boxes[m - 1].position);
      RowRecords(boxes, i, m - 1) + (if d <= MAX_DISTANCE_SQUARED then [JunctionDistance(i, m - 1, d)] else [])
  }

  /** The row of candidates of each box. */
  function Rows(boxes: seq<JunctionBox>): nat -> seq<JunctionDistance> {
    (a: nat) => if a < |boxes| then RowRecords(boxes, a, |boxes|) else []
  }

  /** The candidates whose first box is below `i`, in the order of the two loops. */
  function Records(boxes: seq<JunctionBox>, i: nat): seq<JunctionDistance>
    requires i <= |boxes|
  {
    Seqs.Concat(Rows(boxes), i)
  }

  /** What a candidate record says about the boxes. */
  predicate Candidate(boxes: seq<JunctionBox>, r: JunctionDistance) {
    r.indexA < r.indexB < |boxes|
    && r.distanceSquared == DistanceSquared(boxes[r.indexA].position, boxes[r.indexB].position)
    && r.distanceSquared <= MAX_DISTANCE_SQUARED
  }

  lemma {:induction false} RowRecordsExact(boxes: seq<JunctionBox>, i: nat, m: nat, r: JunctionDistance)
    requires i < m <= |boxes|
    ensures r in RowRecords(boxes, i, m) <==> Candidate(boxes, r) && r.indexA == i && r.indexB < m
    decreases m
  {
    if m > i + 1 {
      RowRecordsExact(boxes, i, m - 1, r);
    }
  }

  /** The records are exactly the pairs `a < b` of boxes at most the limit apart, each with
      its squared distance. */
  lemma RecordsExact(boxes: seq<JunctionBox>, i: nat, r: JunctionDistance)
    requires i <= |boxes|
    ensures r in Records(boxes, i) <==> Candidate(boxes, r) && r.indexA < i
  {
    Seqs.ConcatMember(Rows(boxes), i, r);
    if r in Records(boxes, i) {
      var k :| 0 <= k < i && r in Rows(boxes)(k);
      RowRecordsExact(boxes, k, |boxes|, r);
    }
    if Candidate(boxes, r) && r.indexA < i {
      RowRecordsExact(boxes, r.indexA, |boxes|, r);
      assert r in Rows(boxes)(r.indexA);
    }
  }

  function DistanceKey(r: JunctionDistance): int {
    r.distanceSquared
  }

  /** `junction_distances.sort_by_key(|e| e.distance_squared)`: the candidates nearest
      first, each exactly once. */
  lemma SortedRecords(boxes: seq<JunctionBox>)
    ensures var s := Seqs.SortByKey(Records(boxes, |boxes|), DistanceKey);
      multiset(s) == multiset(Records(boxes, |boxes|))
      && (forall i, j :: 0 <= i < j < |s| ==> s[i].distanceSquared <= s[j].distanceSquared)
      && (forall k :: 0 <= k < |s| ==> Candidate(boxes, s[k]))
  {
    var recs := Records(boxes, |boxes|);
    var s := Seqs.SortByKey(recs, DistanceKey);
    forall i, j | 0 <= i < j < |s|
      ensures s[i].distanceSquared <= s[j].distanceSquared
    {
      assert DistanceKey(s[i]) <= DistanceKey(s[j]);
    }
    forall k | 0 <= k < |s|
      ensures Candidate(boxes, s[k])
    {
      assert s[k] in multiset(recs);
      RecordsExact(boxes, |boxes|, s[k]);
    }
  }

  // ---------------------------------------------------------------------------
  // The connection loop, on the index sets of the networks

  /** The number of connections after which the three largest networks are multiplied. */
  const PART1_CONNECTIONS: nat := 1000

  datatype EvalError = BadBox(error: BoxError) | TooFewNetworks

  /** Where the connection loop ended: the networks, the part-1 product, the number of
      connections taken, and whether the last one left the first network holding every box. */
  datatype Run = Run(networks: seq<set<nat>>, part1: int, taken: nat, joined: bool)

  /** The loop over the sorted connections from connection `c` on, for `n` boxes: after
      `PART1_CONNECTIONS` connections the networks are sorted by size and the three largest
      sizes multiplied (fewer than three networks panic); the loop stops after the first
      connection that leaves the first network holding `n` boxes. */
  function Connecting(n: nat, conns: seq<JunctionDistance>, c: nat, sets: seq<set<nat>>, part1: int): (r: Result<Run, EvalError>)
    requires c <= |conns|
    ensures r.Ok? ==> c <= r.value.taken <= |conns|
    ensures r.Ok? ==> (r.value.joined ==> r.value.taken > c) && (!r.value.joined ==> r.value.taken == |conns|)
    decreases |conns| - c
  {
    if c == |conns| then Ok(Run(sets, part1, c, false))
    else
      var sorted := Prepared(sets, c);
      if c == PART1_CONNECTIONS && |sorted| < 3 then Err(TooFewNetworks)
      else
        var product := if c == PART1_CONNECTIONS then LargestProduct(sorted) else part1;
        var after := Connect(sorted, conns[c].indexA, conns[c].indexB);
        if after != [] && |after[0]| == n then Ok(Run(after, product, c + 1, true))
        else Connecting(n, conns, c + 1, after, product)
  }

  /** Connection `c` unfolded: it stops the loop exactly when the first network then holds `n` boxes. */
  lemma ConnectingNext(n: nat, conns: seq<JunctionDistance>, c: nat, sets: seq<set<nat>>, part1: int,
                       after: seq<set<nat>>, product: int)
    requires c < |conns| && (c == PART1_CONNECTIONS ==> |Prepared(sets, c)| >= 3)
    requires product == if c == PART1_CONNECTIONS then LargestProduct(Prepared(sets, c)) else part1
    requires after == Connect(Prepared(sets, c), conns[c].indexA, conns[c].indexB)
    ensures after != [] && |after[0]| == n ==> Connecting(n, conns, c, sets, part1) == Ok(Run(after, product, c + 1, true))
    ensures !(after != [] && |after[0]| == n) ==> Connecting(n, conns, c, sets, part1) == Connecting(n, conns, c + 1, after, product)
  {
  }

  /** The product of the sizes of the first three networks. */
  function LargestProduct(sorted: seq<set<nat>>): int
    requires |sorted| >= 3
  {
    |sorted[0]| * |sorted[1]| * |sorted[2]|
  }

  /** The networks as connection `c` finds them: sorted by size at `PART1_CONNECTIONS`. */
  function Prepared(sets: seq<set<nat>>, c: nat): seq<set<nat>> {
    if c == PART1_CONNECTIONS then SortBySize(sets) else sets
  }

  /** Both endpoints of every connection. */
  function Endpoints(conns: seq<JunctionDistance>): set<nat> {
    if conns == [] then {} else Endpoints(conns[..|conns| - 1]) + {conns[|conns| - 1].indexA, conns[|conns| - 1].indexB}
  }

  predicate Joins(conns: seq<JunctionDistance>, n: nat) {
    forall k :: 0 <= k < |conns| ==> conns[k].indexA < n && conns[k].indexB < n
  }

  lemma {:induction false} EndpointsBelow(conns: seq<JunctionDistance>, n: nat)
    requires Joins(conns, n)
    ensures Endpoints(conns) <= Below(n)
  {
    if conns != [] {
      EndpointsBelow(conns[..|conns| - 1], n);
    }
  }

  /** One turn of the loop keeps the invariants and adds the connection's endpoints. */
  lemma StepKeeps(n: nat, conns: seq<JunctionDistance>, c: nat, sets: seq<set<nat>>)
    requires c < |conns| && Joins(conns, n)
    requires Disjoint(sets) && NoneEmpty(sets) && Union(sets) == Endpoints(conns[..c])
    ensures var after := Connect(Prepared(sets, c), conns[c].indexA, conns[c].indexB);
      Disjoint(after) && NoneEmpty(after) && Union(after) == Endpoints(conns[..c + 1])
      && (after != [] && |after[0]| == n ==> after == [Below(n)])
  {
    var sorted := Prepared(sets, c);
    if c == PART1_CONNECTIONS {
      SortKeeps(sets);
    }
    var a, b := conns[c].indexA, conns[c].indexB;
    var after := Connect(sorted, a, b);
    var _ := Connected(sorted, a, b);
    assert conns[..c + 1][..c] == conns[..c];
    assert Union(after) == Endpoints(conns[..c + 1]);
    if after != [] && |after[0]| == n {
      EndpointsBelow(conns[..c + 1], n);
      FirstHoldsAll(after, n);
    }
  }

  /** Along the loop the networks stay disjoint and non-empty and hold exactly the endpoints
      of the connections taken; when the loop stops early every box is in the one remaining
      network. */
  lemma {:induction false} ConnectingKeeps(n: nat, conns: seq<JunctionDistance>, c: nat, sets: seq<set<nat>>, part1: int)
    requires c <= |conns| && Joins(conns, n)
    requires Disjoint(sets) && NoneEmpty(sets) && Union(sets) == Endpoints(conns[..c])
    requires Connecting(n, conns, c, sets, part1).Ok?
    ensures var run := Connecting(n, conns, c, sets, part1).value;
      Disjoint(run.networks) && NoneEmpty(run.networks)
      && Union(run.networks) == Endpoints(conns[..run.taken])
      && (run.joined ==> run.networks == [Below(n)])
    decreases |conns| - c
  {
    if c < |conns| {
      StepKeeps(n, conns, c, sets);
      var sorted := Prepared(sets, c);
      var product := if c == PART1_CONNECTIONS then LargestProduct(sorted) else part1;
      var after := Connect(sorted, conns[c].indexA, conns[c].indexB);
      if !(after != [] && |after[0]| == n) {
        ConnectingKeeps(n, conns, c + 1, after, product);
      }
    }
  }

  // ---------------------------------------------------------------------------
  // The connection loop, on `junction_networks`

  /** The index sets of the networks, in order. */
  function Indices(nets: seq<JunctionNetwork>): (sets: seq<set<nat>>)
    reads nets
    ensures |sets| == |nets| && forall k :: 0 <= k < |nets| ==> sets[k] == nets[k].indices
  {
    if nets == [] then [] else Indices(nets[..|nets| - 1]) + [nets[|nets| - 1].indices]
  }

  /** The loop over `junction_networks` for one connection: the networks touching an endpoint
      are found, the first takes both endpoints, and a second one is removed and merged into
      the first. The primary network is the one found first, so it comes before the removed
      one and keeps its position. */
  method ScanNetworks(nets: seq<JunctionNetwork>, a: nat, b: nat) returns (result: seq<JunctionNetwork>, primary: Option<nat>)
    requires Seqs.Distinct(nets)
    modifies nets
    ensures (Indices(result), primary) == Scan(old(Indices(nets)), a, b, 0, None)
    ensures Seqs.Distinct(result) && forall k :: 0 <= k < |result| ==> result[k] in nets
  {
    result := nets;
    primary := None;
    for id := 0 to |nets|
      invariant result == nets
      invariant primary.Some? ==> primary.value < id
      invariant Scan(old(Indices(nets)), a, b, 0, None) == Scan(Indices(nets), a, b, id, primary)
    {
      if nets[id].Contains(a) || nets[id].Contains(b) {
        if primary.Some? {
          result := MergeInto(nets, primary.value, id);
          return;
        } else {
          TakeEndpoints(nets, id, a, b);
          primary := Some(id);
        }
      }
    }
  }

  /** `remove(network_id)` and `merge_from` into the primary network `p`. */
  method MergeInto(nets: seq<JunctionNetwork>, p: nat, id: nat) returns (result: seq<JunctionNetwork>)
    requires Seqs.Distinct(nets) && p < id < |nets|
    modifies nets[p]
    ensures Indices(result) == Remove(old(Indices(nets)), id)[p := old(nets[p].indices) + old(nets[id].indices)]
    ensures Seqs.Distinct(result) && forall k :: 0 <= k < |result| ==> result[k] in nets
  {
    ghost var before := Indices(nets);
    var merged := nets[id];
    result := nets[..id] + nets[id + 1..];
    assert result[p] == nets[p];
    forall i, j | 0 <= i < |result| && 0 <= j < |result| && i != j
      ensures result[i] != result[j]
    {
      var i', j' := if i < id then i else i + 1, if j < id then j else j + 1;
      assert result[i] == nets[i'] && result[j] == nets[j'];
    }
    result[p].MergeFrom(merged);
    ghost var after := Remove(before, id)[p := before[p] + before[id]];
    forall k | 0 <= k < |result|
      ensures Indices(result)[k] == after[k]
    {
      if k != p {
        assert result[k] != result[p];
      }
    }
  }

  /** The primary network takes both endpoints. */
  method TakeEndpoints(nets: seq<JunctionNetwork>, id: nat, a: nat, b: nat)
    requires Seqs.Distinct(nets) && id < |nets|
    modifies nets[id]
    ensures Indices(nets) == old(Indices(nets))[id := old(nets[id].indices) + {a, b}]
  {
    ghost var before := Indices(nets);
    nets[id].Add(a);
    nets[id].Add(b);
    ghost var after := before[id := before[id] + {a, b}];
    forall k | 0 <= k < |nets|
      ensures Indices(nets)[k] == after[k]
    {
      if k != id {
        assert nets[k] != nets[id];
      }
    }
  }

  function PairKey(p: (JunctionNetwork, set<nat>)): int {
    SizeKey(p.1)
  }

  function Network(p: (JunctionNetwork, set<nat>)): JunctionNetwork {
    p.0
  }

  function NetworkIndices(p: (JunctionNetwork, set<nat>)): set<nat> {
    p.1
  }

  /** `junction_networks.sort_by_key(|e| usize::MAX - e.indices.len())`: the network objects
      reordered, largest first, as `SortBySize` orders their index sets. */
  method SortNetworks(nets: seq<JunctionNetwork>) returns (sorted: seq<JunctionNetwork>)
    requires Seqs.Distinct(nets)
    ensures Indices(sorted) == SortBySize(Indices(nets))
    ensures Seqs.Distinct(sorted) && forall k :: 0 <= k < |sorted| ==> sorted[k] in nets
  {
    var keyed: seq<(JunctionNetwork, set<nat>)> := [];
    for k := 0 to |nets|
      invariant |keyed| == k
      invariant forall m :: 0 <= m < k ==> keyed[m] == (nets[m], nets[m].indices)
    {
      keyed := keyed + [(nets[k], nets[k].indices)];
    }
    var pairs := Seqs.SortByKey(keyed, PairKey);
    sorted := Seqs.Map(Network, pairs);
    SortedPairs(nets, keyed);
  }

  /** Each network paired with its index set, sorted by the size of the set. */
  lemma SortedPairs(nets: seq<JunctionNetwork>, keyed: seq<(JunctionNetwork, set<nat>)>)
    requires Seqs.Distinct(nets) && |keyed| == |nets|
    requires forall m :: 0 <= m < |nets| ==> keyed[m] == (nets[m], nets[m].indices)
    ensures var sorted := Seqs.Map(Network, Seqs.SortByKey(keyed, PairKey));
      Indices(sorted) == SortBySize(Indices(nets))
      && Seqs.Distinct(sorted) && forall k :: 0 <= k < |sorted| ==> sorted[k] in nets
  {
    var pairs := Seqs.SortByKey(keyed, PairKey);
    PairsConsistent(nets, keyed, pairs);
    assert Seqs.Distinct(pairs) by {
      assert Seqs.Distinct(keyed);
      Seqs.DistinctPermutation(keyed, pairs);
    }
    MapNetworks(pairs);
    assert Seqs.Map(NetworkIndices, pairs) == SortBySize(Indices(nets)) by {
      assert Seqs.Map(NetworkIndices, keyed) == Indices(nets);
      Seqs.SortMap(keyed, NetworkIndices, PairKey, SizeKey);
    }
  }

  lemma PairsConsistent(nets: seq<JunctionNetwork>, keyed: seq<(JunctionNetwork, set<nat>)>, pairs: seq<(JunctionNetwork, set<nat>)>)
    requires |keyed| == |nets| && multiset(pairs) == multiset(keyed)
    requires forall m :: 0 <= m < |nets| ==> keyed[m] == (nets[m], nets[m].indices)
    ensures forall k :: 0 <= k < |pairs| ==> pairs[k].1 == pairs[k].0.indices && pairs[k].0 in nets
  {
    forall k | 0 <= k < |pairs|
      ensures pairs[k].1 == pairs[k].0.indices && pairs[k].0 in nets
    {
      assert pairs[k] in multiset(keyed);
      var m :| 0 <= m < |keyed| && keyed[m] == pairs[k];
    }
  }

  lemma MapNetworks(pairs: seq<(JunctionNetwork, set<nat>)>)
    requires Seqs.Distinct(pairs)
    requires forall k :: 0 <= k < |pairs| ==> pairs[k].1 == pairs[k].0.indices
    ensures Indices(Seqs.Map(Network, pairs)) == Seqs.Map(NetworkIndices, pairs)
    ensures Seqs.Distinct(Seqs.Map(Network, pairs))
  {
    var sorted := Seqs.Map(Network, pairs);
    forall i, j | 0 <= i < |sorted| && 0 <= j < |sorted| && i != j
      ensures sorted[i] != sorted[j]
    {
      assert pairs[i] != pairs[j];
    }
  }

  // ---------------------------------------------------------------------------
  // The whole program

  /** `code.lines().map(to_junction_box).collect()`: the first line that fails decides. */
  function ParseBoxes(lines: seq<string>): (r: Result<seq<JunctionBox>, EvalError>)
    ensures r.Ok? ==> |r.value| == |lines|
  {
    if lines == [] then Ok([])
    else
      match ParseBoxes(lines[..|lines| - 1])
      case Err(e) => Err(e)
      case Ok(boxes) =>
        match ParseBox(lines[|lines| - 1])
        case Err(e) => Err(BadBox(e))
        case Ok(box) => Ok(boxes + [box])
  }

  /** Once a prefix fails, the lines fail with the same error. */
  lemma {:induction false} ParseBoxesErrorSticks(lines: seq<string>, i: nat)
    requires i <= |lines| && ParseBoxes(lines[..i]).Err?
    ensures ParseBoxes(lines) == ParseBoxes(lines[..i])
    decreases |lines| - i
  {
    if i < |lines| {
      assert lines[..i + 1][..i] == lines[..i];
      ParseBoxesErrorSticks(lines, i + 1);
    } else {
      assert lines[..i] == lines;
    }
  }

  /** Every candidate connection, nearest first. */
  function SortedCandidates(boxes: seq<JunctionBox>): (conns: seq<JunctionDistance>)
    ensures Joins(conns, |boxes|)
    ensures forall i, j :: 0 <= i < j < |conns| ==> conns[i].distanceSquared <= conns[j].distanceSquared
    ensures multiset(conns) == multiset(Records(boxes, |boxes|))
  {
    SortedRecords(boxes);
    Seqs.SortByKey(Records(boxes, |boxes|), DistanceKey)
  }

  /** From no networks, the loop over the nearest-first connections keeps the networks
      disjoint, holding exactly the endpoints of the connections taken, and when it breaks
      early a single network holds every box. */
  lemma ConnectAllKeeps(boxes: seq<JunctionBox>)
    ensures var conns := SortedCandidates(boxes);
      var r := Connecting(|boxes|, conns, 0, [], 0);
      r.Ok? ==>
        Disjoint(r.value.networks) && NoneEmpty(r.value.networks)
        && Union(r.value.networks) == Endpoints(conns[..r.value.taken])
        && (r.value.joined ==> r.value.networks == [Below(|boxes|)])
  {
    var conns := SortedCandidates(boxes);
    assert conns[..0] == [];
    if Connecting(|boxes|, conns, 0, [], 0).Ok? {
      ConnectingKeeps(|boxes|, conns, 0, [], 0);
    }
  }

  /** The three printed values: the part-1 product, and for the connection that joined every
      box the product of its boxes' x coordinates and its squared distance (0 and 0 if none). */
  function Outcome(boxes: seq<JunctionBox>, conns: seq<JunctionDistance>): Result<(int, int, int), EvalError>
    requires Joins(conns, |boxes|)
  {
    match Connecting(|boxes|, conns, 0, [], 0)
    case Err(e) => Err(e)
    case Ok(run) =>
      if run.joined then
        var last := conns[run.taken - 1];
        Ok((run.part1, boxes[last.indexA].position.x * boxes[last.indexB].position.x, last.distanceSquared))
      else Ok((run.part1, 0, 0))
  }

  function Evaluate(input: string): Result<(int, int, int), EvalError> {
    match ParseBoxes(Text.Lines(input))
    case Err(e) => Err(e)
    case Ok(boxes) => Outcome(boxes, SortedCandidates(boxes))
  }

  /** `main` after reading the file. */
  method Main08(input: string) returns (result: Result<(int, int, int), EvalError>)
    ensures result == Evaluate(input)
  {
    var read := ReadBoxes(Text.Lines(input));
    if read.Err? {
      return Err(read.error);
    }
    var boxes := read.value;
    var distances := ComputeDistances(boxes);
    var sorted := SortedCandidates(boxes);
    assert sorted == Seqs.SortByKey(distances, DistanceKey);
    result := ConnectAll(boxes, sorted);
  }

  method ReadBoxes(lines: seq<string>) returns (result: Result<seq<JunctionBox>, EvalError>)
    ensures result == ParseBoxes(lines)
  {
    var boxes: seq<JunctionBox> := [];
    for i := 0 to |lines|
      invariant ParseBoxes(lines[..i]) == Ok(boxes)
    {
      assert lines[..i + 1][..i] == lines[..i];
      var box := ParseBox(lines[i]);
      if box.Err? {
        ParseBoxesErrorSticks(lines, i + 1);
        return Err(BadBox(box.error));
      }
      boxes := boxes + [box.value];
    }
    assert lines[..|lines|] == lines;
    return Ok(boxes);
  }

  /** The two loops building `junction_distances`. */
  method ComputeDistances(boxes: seq<JunctionBox>) returns (records: seq<JunctionDistance>)
    ensures records == Records(boxes, |boxes|)
  {
    records := [];
    for indexA := 0 to |boxes|
      invariant records == Records(boxes, indexA)
    {
      var row := RowDistances(boxes, indexA);
      records := records + row;
    }
  }

  method RowDistances(boxes: seq<JunctionBox>, indexA: nat) returns (row: seq<JunctionDistance>)
    requires indexA < |boxes|
    ensures row == RowRecords(boxes, indexA, |boxes|)
  {
    row := [];
    var a := boxes[indexA].position;
    for offsetB := 0 to |boxes| - indexA - 1
      invariant row == RowRecords(boxes, indexA, indexA + offsetB + 1)
    {
      var indexB := indexA + offsetB + 1;
      var b := boxes[indexB].position;
      var distanceSquared := (a.x - b.x) * (a.x - b.x) + (a.y - b.y) * (a.y - b.y) + (a.z - b.z) * (a.z - b.z);
      if distanceSquared <= MAX_DISTANCE_SQUARED {
        row := row + [JunctionDistance(indexA, indexB, distanceSquared)];
      }
    }
  }

  /** The loop over the sorted connections, on `junction_networks`. */
  method ConnectAll(boxes: seq<JunctionBox>, conns: seq<JunctionDistance>) returns (result: Result<(int, int, int), EvalError>)
    requires Joins(conns, |boxes|)
    ensures result == Outcome(boxes, conns)
  {
    var part1 := 0;
    var nets: seq<JunctionNetwork> := [];
    ghost var n := |boxes|;
    ghost var run := Connecting(n, conns, 0, [], 0);
    for connectionId := 0 to |conns|
      invariant Seqs.Distinct(nets)
      invariant forall k :: 0 <= k < |nets| ==> fresh(nets[k])
      invariant run == Connecting(n, conns, connectionId, Indices(nets), part1)
    {
      var joined;
      nets, part1, joined := Turn(nets, conns, connectionId, part1, |boxes|);
      if joined.Err? {
        return Err(joined.error);
      }
      if joined.value {
        var connection := conns[connectionId];
        var part2 := boxes[connection.indexA].position.x * boxes[connection.indexB].position.x;
        return Ok((part1, part2, connection.distanceSquared));
      }
    }
    assert run == Ok(Run(Indices(nets), part1, |conns|, false));
    return Ok((part1, 0, 0));
  }

  /** One turn of the loop over the connections: `Err` for the panic, `Ok(true)` when the
      first network then holds all `n` boxes and the loop breaks. */
  method Turn(nets: seq<JunctionNetwork>, conns: seq<JunctionDistance>, c: nat, part1: int, n: nat)
    returns (after: seq<JunctionNetwork>, product: int, joined: Result<bool, EvalError>)
    requires c < |conns| && Seqs.Distinct(nets)
    modifies nets
    ensures Seqs.Distinct(after) && forall k :: 0 <= k < |after| ==> after[k] in nets || fresh(after[k])
    ensures joined.Err? ==> Connecting(n, conns, c, old(Indices(nets)), part1) == Err(joined.error)
    ensures joined == Ok(true) ==> Connecting(n, conns, c, old(Indices(nets)), part1) == Ok(Run(Indices(after), product, c + 1, true))
    ensures joined == Ok(false) ==> Connecting(n, conns, c, old(Indices(nets)), part1) == Connecting(n, conns, c + 1, Indices(after), product)
  {
    ghost var sets := Indices(nets);
    var ready;
    after, product, ready := PrepareNetworks(nets, c, part1);
    if !ready {
      return after, product, Err(TooFewNetworks);
    }
    after := ConnectNetworks(after, conns[c].indexA, conns[c].indexB);
    joined := Ok(after != [] && after[0].Size() == n);
    ConnectingNext(n, conns, c, sets, part1, Indices(after), product);
  }

  /** At `PART1_CONNECTIONS` the networks are sorted by size and the three largest multiplied,
      which fails with fewer than three networks. */
  method PrepareNetworks(nets: seq<JunctionNetwork>, c: nat, part1: int)
    returns (sorted: seq<JunctionNetwork>, product: int, ready: bool)
    requires Seqs.Distinct(nets)
    ensures ready <==> (c == PART1_CONNECTIONS ==> |Prepared(Indices(nets), c)| >= 3)
    ensures ready ==> Indices(sorted) == Prepared(Indices(nets), c)
    ensures ready ==> product == if c == PART1_CONNECTIONS then LargestProduct(Prepared(Indices(nets), c)) else part1
    ensures Seqs.Distinct(sorted) && forall k :: 0 <= k < |sorted| ==> sorted[k] in nets
  {
    sorted, product, ready := nets, part1, true;
    if c == PART1_CONNECTIONS {
      sorted := SortNetworks(nets);
      if |sorted| < 3 {
        return sorted, product, false;
      }
      product := sorted[0].Size() * sorted[1].Size() * sorted[2].Size();
      assert product == LargestProduct(Indices(sorted));
    }
  }

  /** One connection on `junction_networks`: a new network holding both endpoints is pushed
      when no network touches either. */
  method ConnectNetworks(nets: seq<JunctionNetwork>, a: nat, b: nat) returns (result: seq<JunctionNetwork>)
    requires Seqs.Distinct(nets)
    modifies nets
    ensures Indices(result) == Connect(old(Indices(nets)), a, b)
    ensures Seqs.Distinct(result) && forall k :: 0 <= k < |result| ==> result[k] in nets || fresh(result[k])
  {
    var primary;
    result, primary := ScanNetworks(nets, a, b);
    if primary.None? {
      var network := new JunctionNetwork({a, b});
      assert Indices(result + [network]) == Indices(result) + [network.indices];
      result := result + [network];
    }
  }
}
