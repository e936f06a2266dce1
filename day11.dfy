/** Day 11: counting the paths through a device graph to `out`, optionally only those
    that visit both `dac` and `fft`, with a memo table. */
module Day11 {
  import opened Wrappers
  import Text

  /** A device: its three-character id and the devices its outputs lead to. */
  datatype Node = Node(id: string, outputs: set<string>)

  /** The state of one search: where it stands and which of the two required devices it
      has not passed yet. */
  datatype CacheKey = CacheKey(id: string, needsFft: bool, needsDac: bool)

  /** The devices by id. */
  type Graph = map<string, Node>

  // ---------------------------------------------------------------------------
  // Parsing

  /** `Node::from_str`: the first space-separated token cut to its first three characters
      is the id; the other tokens are the outputs. A first token shorter than three
      characters makes the slice panic (`None`). */
  function ParseNode(line: string): (r: Option<Node>)
    ensures r.Some? <==> |Text.Split(line, ' ')[0]| >= 3
  {
    var tokens := Text.Split(line, ' ');
    if |tokens[0]| < 3 then None
    else Some(Node(tokens[0][..3], set k | 1 <= k < |tokens| :: tokens[k]))
  }

  /** A line written as `aaa: bbb ccc` reads back as device `aaa` with those outputs. */
  lemma ParseNodeLine(id: string, outputs: seq<string>)
    requires |id| == 3 && ' ' !in id
    requires forall k :: 0 <= k < |outputs| ==> ' ' !in outputs[k]
    ensures ParseNode(Text.Join([id + ":"] + outputs, ' ')) == Some(Node(id, set o | o in outputs))
  {
    var pieces := [id + ":"] + outputs;
    assert forall k :: 0 <= k < |pieces| ==> ' ' !in pieces[k] by {
      forall k | 0 <= k < |pieces|
        ensures ' ' !in pieces[k]
      {
        if k > 0 {
          assert pieces[k] == outputs[k - 1];
        }
      }
    }
    Text.SplitJoin(pieces, ' ');
    assert (id + ":")[..3] == id;
    TokensAfterFirst(id + ":", outputs);
  }

  /** The tokens after the first, collected into a set, are the elements of the rest. */
  lemma TokensAfterFirst(first: string, outputs: seq<string>)
    ensures (set k | 1 <= k < |[first] + outputs| :: ([first] + outputs)[k]) == set o | o in outputs
  {
    var pieces := [first] + outputs;
    forall o | o in outputs
      ensures o in set k | 1 <= k < |pieces| :: pieces[k]
    {
      var k :| 0 <= k < |outputs| && outputs[k] == o;
      assert pieces[k + 1] == o;
    }
  }

  /** Every line parsed, or `None` at the first line that panics. */
  function ParseNodes(lines: seq<string>): (r: Option<seq<Node>>)
    ensures r.Some? <==> forall i :: 0 <= i < |lines| ==> ParseNode(lines[i]).Some?
    ensures r.Some? ==> |r.value| == |lines| && forall i :: 0 <= i < |lines| ==> Some(r.value[i]) == ParseNode(lines[i])
  {
    if lines == [] then Some([])
    else
      match ParseNode(lines[0])
      case None => None
      case Some(node) =>
        match ParseNodes(lines[1..])
        case None =>
          assert forall i :: 1 <= i < |lines| ==> lines[i] == lines[1..][i - 1];
          None
        case Some(rest) => Some([node] + rest)
  }

  /** Index `k` is the last node with its id. */
  predicate LastWithId(nodes: seq<Node>, k: nat)
    requires k < |nodes|
  {
    forall j :: k < j < |nodes| ==> nodes[j].id != nodes[k].id
  }

  /** Collecting `(id, node)` pairs into a map: a later node replaces an earlier one with the
      same id. */
  function Devices(nodes: seq<Node>): Graph {
    if nodes == [] then map[]
    else Devices(nodes[..|nodes| - 1])[nodes[|nodes| - 1].id := nodes[|nodes| - 1]]
  }

  /** Every parsed node's id is a device. */
  lemma {:induction false} DevicesKeys(nodes: seq<Node>)
    ensures forall k :: 0 <= k < |nodes| ==> nodes[k].id in Devices(nodes)
  {
    if nodes != [] {
      var init := nodes[..|nodes| - 1];
      DevicesKeys(init);
      assert forall k :: 0 <= k < |init| ==> init[k] == nodes[k];
    }
  }

  /** Every device is a parsed node, filed under its own id. */
  lemma {:induction false} DevicesValues(nodes: seq<Node>)
    ensures forall id :: id in Devices(nodes) ==> Devices(nodes)[id].id == id && Devices(nodes)[id] in nodes
  {
    if nodes != [] {
      var init, last := nodes[..|nodes| - 1], nodes[|nodes| - 1];
      DevicesValues(init);
      assert nodes == init + [last];
    }
  }

  /** The last node with an id is the device filed under it. */
  lemma {:induction false} DevicesLast(nodes: seq<Node>)
    ensures forall k :: 0 <= k < |nodes| && LastWithId(nodes, k) ==>
      nodes[k].id in Devices(nodes) && Devices(nodes)[nodes[k].id] == nodes[k]
  {
    if nodes != [] {
      var init, last := nodes[..|nodes| - 1], nodes[|nodes| - 1];
      DevicesLast(init);
      DevicesKeys(nodes);
      forall k | 0 <= k < |init| && LastWithId(nodes, k)
        ensures LastWithId(init, k) && nodes[k].id != last.id
      {
        assert init[k] == nodes[k];
        assert forall j :: k < j < |init| ==> init[j] == nodes[j];
      }
    }
  }

  // ---------------------------------------------------------------------------
  // The count, without a memo table

  /** Entering a device: `dac` clears the need for `dac`, `fft` the need for `fft`. */
  function Visit(key: CacheKey): (k: CacheKey)
    ensures k.id == key.id
    ensures k.needsDac <==> key.needsDac && key.id != "dac"
    ensures k.needsFft <==> key.needsFft && key.id != "fft"
  {
    match key.id
    case "dac" => key.(needsDac := false)
    case "fft" => key.(needsFft := false)
    case _ => key
  }

  /** `rank` strictly decreases along every connection the search can follow, so the search
      meets no cycle. The outputs of `out` are exempt: `follow_path` stops at `out` before it
      looks at them. */
  predicate Ranked(g: Graph, rank: string -> nat) {
    forall id, o :: id in g && id != "out" && o in g[id].outputs ==> rank(o) < rank(id)
  }

  /** `follow_path` without the memo table: 1 or 0 at `out` depending on the flags, 0 at
      an unknown device, otherwise the sum over the outputs. The ranking only bounds the
      recursion. */
  ghost function Paths(g: Graph, rank: string -> nat, key: CacheKey): nat
    requires Ranked(g, rank)
    decreases rank(key.id), 1, 0
  {
    if key.id == "out" then (if key.needsDac || key.needsFft then 0 else 1)
    else
      var k := Visit(key);
      if k.id in g then SumPaths(g, rank, g[k.id].outputs, k.needsFft, k.needsDac, rank(k.id))
      else 0
  }

  /** The counts from each of `outputs` with the given flags, added up in any order. */
  ghost function SumPaths(g: Graph, rank: string -> nat, outputs: set<string>, needsFft: bool,
                          needsDac: bool, bound: nat): nat
    requires Ranked(g, rank)
    requires forall o :: o in outputs ==> rank(o) < bound
    decreases bound, 0, |outputs|
  {
    if outputs == {} then 0
    else
      var o :| o in outputs;
      Paths(g, rank, CacheKey(o, needsFft, needsDac)) + SumPaths(g, rank, outputs - {o}, needsFft, needsDac, bound)
  }

  /** The sum does not depend on which output is taken first. */
  lemma {:induction false} SumPathsAny(g: Graph, rank: string -> nat, outputs: set<string>, needsFft: bool,
                                       needsDac: bool, bound: nat, o: string)
    requires Ranked(g, rank)
    requires forall o :: o in outputs ==> rank(o) < bound
    requires o in outputs
    ensures SumPaths(g, rank, outputs, needsFft, needsDac, bound)
         == Paths(g, rank, CacheKey(o, needsFft, needsDac)) + SumPaths(g, rank, outputs - {o}, needsFft, needsDac, bound)
    decreases |outputs|
  {
    var p :| p in outputs && SumPaths(g, rank, outputs, needsFft, needsDac, bound)
      == Paths(g, rank, CacheKey(p, needsFft, needsDac)) + SumPaths(g, rank, outputs - {p}, needsFft, needsDac, bound);
    if p != o {
      SumPathsAny(g, rank, outputs - {p}, needsFft, needsDac, bound, o);
      SumPathsAny(g, rank, outputs - {o}, needsFft, needsDac, bound, p);
      assert outputs - {p} - {o} == outputs - {o} - {p};
    }
  }

  /** At `out` one route counts exactly when no device is still required; a device other
      than `out` without a node has none. */
  lemma PathsEnds(g: Graph, rank: string -> nat, key: CacheKey)
    requires Ranked(g, rank)
    ensures key.id == "out" ==> (Paths(g, rank, key) == 1 <==> !key.needsDac && !key.needsFft)
    ensures key.id != "out" && key.id !in g ==> Paths(g, rank, key) == 0
  {
  }

  /** A connection back out of `out` is never followed: `you: out` with `out: you` is ranked,
      and the counts are 1 from `you` and 0 from `svr`, which has no node. */
  lemma OutEndsTheSearch(g: Graph, rank: string -> nat)
    requires g == map["you" := Node("you", {"out"}), "out" := Node("out", {"you"})]
    requires forall id :: rank(id) == if id == "you" then 1 else 0
    ensures Ranked(g, rank)
    ensures Paths(g, rank, CacheKey("you", false, false)) == 1
    ensures Paths(g, rank, CacheKey("svr", true, true)) == 0
  {
    var you := CacheKey("you", false, false);
    assert Visit(you) == you && "you" in g && g["you"].outputs == {"out"};
    SumPathsAny(g, rank, {"out"}, false, false, rank("you"), "out");
    assert {"out"} - {"out"} == {};
  }

  /** Entering a device twice changes nothing, so a key and its visited form count the same. */
  lemma PathsVisit(g: Graph, rank: string -> nat, key: CacheKey)
    requires Ranked(g, rank)
    ensures Paths(g, rank, Visit(key)) == Paths(g, rank, key)
  {
    assert Visit(Visit(key)) == Visit(key);
  }

  // ---------------------------------------------------------------------------
  // What the count counts

  /** `w` is a route from `key.id` to `out`: every device before `out` is known and leads to
      the next, `out` is only reached at the end, and every device the flags still require
      is on it. */
  ghost predicate Walk(g: Graph, w: seq<string>, key: CacheKey) {
    && |w| >= 1 && w[0] == key.id && w[|w| - 1] == "out"
    && (forall i :: 0 <= i < |w| - 1 ==> w[i] != "out" && w[i] in g && w[i + 1] in g[w[i]].outputs)
    && (key.needsDac ==> "dac" in w)
    && (key.needsFft ==> "fft" in w)
  }

  /** The routes themselves, gathered the way `Paths` counts them. */
  ghost function Walks(g: Graph, rank: string -> nat, key: CacheKey): set<seq<string>>
    requires Ranked(g, rank)
    decreases rank(key.id), 1
  {
    if key.id == "out" then (if key.needsDac || key.needsFft then {} else {["out"]})
    else
      var k := Visit(key);
      if k.id in g then
        set w | w in WalksFrom(g, rank, g[k.id].outputs, k.needsFft, k.needsDac, rank(k.id)) :: [k.id] + w
      else {}
  }

  /** The routes from any of `outputs` with the given flags. */
  ghost function WalksFrom(g: Graph, rank: string -> nat, outputs: set<string>, needsFft: bool,
                           needsDac: bool, bound: nat): set<seq<string>>
    requires Ranked(g, rank)
    requires forall o :: o in outputs ==> rank(o) < bound
    decreases bound, 0
  {
    set o, w | o in outputs && w in Walks(g, rank, CacheKey(o, needsFft, needsDac)) :: w
  }

  /** Every gathered route starts where the search starts. */
  lemma WalksStart(g: Graph, rank: string -> nat, key: CacheKey, w: seq<string>)
    requires Ranked(g, rank)
    requires w in Walks(g, rank, key)
    ensures |w| >= 1 && w[0] == key.id
  {
  }

  /** Putting the same device in front of every route keeps their number. */
  lemma {:induction false} PrefixedCount(x: string, s: set<seq<string>>)
    ensures |set w | w in s :: [x] + w| == |s|
    decreases |s|
  {
    if s != {} {
      var e :| e in s;
      PrefixedCount(x, s - {e});
      var rest := set w | w in s - {e} :: [x] + w;
      assert (set w | w in s :: [x] + w) == rest + {[x] + e};
      forall w | w in s - {e}
        ensures [x] + w != [x] + e
      {
        assert ([x] + w)[1..] == w && ([x] + e)[1..] == e;
      }
    }
  }

  /** The count is the number of gathered routes. */
  lemma {:induction false} WalksCount(g: Graph, rank: string -> nat, key: CacheKey)
    requires Ranked(g, rank)
    ensures |Walks(g, rank, key)| == Paths(g, rank, key)
    decreases rank(key.id), 1
  {
    if key.id != "out" {
      var k := Visit(key);
      if k.id in g {
        var outputs := g[k.id].outputs;
        WalksFromCount(g, rank, outputs, k.needsFft, k.needsDac, rank(k.id));
        PrefixedCount(k.id, WalksFrom(g, rank, outputs, k.needsFft, k.needsDac, rank(k.id)));
      }
    }
  }

  /** The routes from different outputs are different, so their numbers add up. */
  lemma {:induction false} WalksFromCount(g: Graph, rank: string -> nat, outputs: set<string>, needsFft: bool,
                                          needsDac: bool, bound: nat)
    requires Ranked(g, rank)
    requires forall o :: o in outputs ==> rank(o) < bound
    ensures |WalksFrom(g, rank, outputs, needsFft, needsDac, bound)| == SumPaths(g, rank, outputs, needsFft, needsDac, bound)
    decreases bound, 0, |outputs|
  {
    if outputs == {} {
      assert WalksFrom(g, rank, outputs, needsFft, needsDac, bound) == {};
    } else {
      var o :| o in outputs;
      WalksFromSplit(g, rank, outputs, needsFft, needsDac, bound, o);
      WalksCount(g, rank, CacheKey(o, needsFft, needsDac));
      WalksFromCount(g, rank, outputs - {o}, needsFft, needsDac, bound);
      SumPathsAny(g, rank, outputs, needsFft, needsDac, bound, o);
    }
  }

  /** The routes from a set of outputs are those from one of them and, apart from those,
      the routes from the others. */
  lemma WalksFromSplit(g: Graph, rank: string -> nat, outputs: set<string>, needsFft: bool,
                       needsDac: bool, bound: nat, o: string)
    requires Ranked(g, rank)
    requires forall o :: o in outputs ==> rank(o) < bound
    requires o in outputs
    ensures var first := Walks(g, rank, CacheKey(o, needsFft, needsDac));
            var rest := WalksFrom(g, rank, outputs - {o}, needsFft, needsDac, bound);
            WalksFrom(g, rank, outputs, needsFft, needsDac, bound) == first + rest && first !! rest
  {
    var first := Walks(g, rank, CacheKey(o, needsFft, needsDac));
    var rest := WalksFrom(g, rank, outputs - {o}, needsFft, needsDac, bound);
    forall w | w in first
      ensures w !in rest
    {
      WalksStart(g, rank, CacheKey(o, needsFft, needsDac), w);
      forall p | p in outputs - {o}
        ensures w !in Walks(g, rank, CacheKey(p, needsFft, needsDac))
      {
        if w in Walks(g, rank, CacheKey(p, needsFft, needsDac)) {
          WalksStart(g, rank, CacheKey(p, needsFft, needsDac), w);
        }
      }
    }
  }

  /** The gathered routes are exactly the routes. */
  lemma {:induction false} WalksExact(g: Graph, rank: string -> nat, key: CacheKey, w: seq<string>)
    requires Ranked(g, rank)
    ensures w in Walks(g, rank, key) <==> Walk(g, w, key)
    decreases rank(key.id)
  {
    if key.id == "out" {
      if Walk(g, w, key) {
        assert w == ["out"];
      }
    } else {
      var k := Visit(key);
      if k.id in g {
        var outputs := g[k.id].outputs;
        var from := WalksFrom(g, rank, outputs, k.needsFft, k.needsDac, rank(k.id));
        if w in Walks(g, rank, key) {
          var v :| v in from && w == [k.id] + v;
          var o :| o in outputs && v in Walks(g, rank, CacheKey(o, k.needsFft, k.needsDac));
          WalksExact(g, rank, CacheKey(o, k.needsFft, k.needsDac), v);
          WalkCons(g, key, o, v);
        }
        if Walk(g, w, key) {
          assert |w| >= 2;
          var v := w[1..];
          var o := w[1];
          assert o in outputs;
          WalkTail(g, key, w);
          WalksExact(g, rank, CacheKey(o, k.needsFft, k.needsDac), v);
          assert v in from;
          assert w == [k.id] + v;
        }
      }
    }
  }

  /** A route from an output, with the flags left after entering a device, extends to a
      route from that device. */
  lemma WalkCons(g: Graph, key: CacheKey, o: string, v: seq<string>)
    requires key.id != "out" && key.id in g && o in g[key.id].outputs
    requires Walk(g, v, CacheKey(o, Visit(key).needsFft, Visit(key).needsDac))
    ensures Walk(g, [key.id] + v, key)
  {
    var w := [key.id] + v;
    forall i | 0 <= i < |w| - 1
      ensures w[i] != "out" && w[i] in g && w[i + 1] in g[w[i]].outputs
    {
      if i > 0 {
        assert w[i] == v[i - 1] && w[i + 1] == v[i];
      }
    }
    assert "dac" in v ==> "dac" in w;
    assert "fft" in v ==> "fft" in w;
  }

  /** Dropping the first device of a route gives a route from its second device, with the
      flags left after entering the first. */
  lemma WalkTail(g: Graph, key: CacheKey, w: seq<string>)
    requires key.id != "out" && Walk(g, w, key)
    ensures |w| >= 2 && Walk(g, w[1..], CacheKey(w[1], Visit(key).needsFft, Visit(key).needsDac))
  {
    assert |w| >= 2;
    var v := w[1..];
    forall i | 0 <= i < |v| - 1
      ensures v[i] != "out" && v[i] in g && v[i + 1] in g[v[i]].outputs
    {
      assert v[i] == w[i + 1] && v[i + 1] == w[i + 2];
    }
    assert w == [w[0]] + v;
    assert "dac" in w && w[0] != "dac" ==> "dac" in v;
    assert "fft" in w && w[0] != "fft" ==> "fft" in v;
  }

  /** The meaning of the count: the number of routes from `key.id` to `out` that still pass
      every required device, and no others. */
  lemma PathsCountWalks(g: Graph, rank: string -> nat, key: CacheKey)
    requires Ranked(g, rank)
    ensures Paths(g, rank, key) == |Walks(g, rank, key)|
    ensures forall w :: w in Walks(g, rank, key) <==> Walk(g, w, key)
  {
    WalksCount(g, rank, key);
    forall w
      ensures w in Walks(g, rank, key) <==> Walk(g, w, key)
    {
      WalksExact(g, rank, key, w);
    }
  }

  /** Requiring devices on the way only removes routes: the count with flags set is at most
      the count of all routes from the same device. */
  lemma FlagsNarrow(g: Graph, rank: string -> nat, key: CacheKey)
    requires Ranked(g, rank)
    ensures Paths(g, rank, key) <= Paths(g, rank, CacheKey(key.id, false, false))
  {
    var free := CacheKey(key.id, false, false);
    WalksCount(g, rank, key);
    WalksCount(g, rank, free);
    WalksNarrow(g, rank, key);
    SubsetCount(Walks(g, rank, key), Walks(g, rank, free));
  }

  /** Every route that passes the required devices is a route. */
  lemma WalksNarrow(g: Graph, rank: string -> nat, key: CacheKey)
    requires Ranked(g, rank)
    ensures Walks(g, rank, key) <= Walks(g, rank, CacheKey(key.id, false, false))
  {
    var free := CacheKey(key.id, false, false);
    forall w | w in Walks(g, rank, key)
      ensures w in Walks(g, rank, free)
    {
      WalksExact(g, rank, key, w);
      WalksExact(g, rank, free, w);
    }
  }

  lemma SubsetCount<T>(a: set<T>, b: set<T>)
    requires a <= b
    ensures |a| <= |b|
  {
    assert b == a + (b - a);
  }

  // ---------------------------------------------------------------------------
  // The memoised count

  /** The memo table `follow_path` fills. */
  class PathCache {
    var entries: map<CacheKey, nat>

    constructor()
      ensures entries == map[]
    {
      entries := map[];
    }

    /** Every entry is the count without the table. */
    ghost predicate Sound(g: Graph, rank: string -> nat)
      requires Ranked(g, rank)
      reads this
    {
      forall k :: k in entries ==> entries[k] == Paths(g, rank, k)
    }
  }

  /** `follow_path`: the count from `target`, read from the table when the visited key is in
      it, otherwise computed over the outputs and stored under the visited key. */
  method FollowPath(machines: Graph, ghost rank: string -> nat, target: CacheKey, cache: PathCache)
    returns (count: nat)
    requires Ranked(machines, rank) && cache.Sound(machines, rank)
    modifies cache
    ensures count == Paths(machines, rank, target)
    ensures cache.Sound(machines, rank)
    ensures forall k :: k in old(cache.entries) ==> k in cache.entries && cache.entries[k] == old(cache.entries[k])
    ensures target.id != "out" && Visit(target).id in machines ==> Visit(target) in cache.entries
    decreases rank(target.id), 1
  {
    if target.id == "out" {
      return if target.needsDac || target.needsFft then 0 else 1;
    }
    var visited := target;
    if visited.id == "dac" {
      visited := visited.(needsDac := false);
    } else if visited.id == "fft" {
      visited := visited.(needsFft := false);
    }
    assert visited == Visit(target);
    PathsVisit(machines, rank, target);
    if visited in cache.entries {
      return cache.entries[visited];
    }
    if visited.id in machines {
      count := SumOutputs(machines, rank, machines[visited.id].outputs, visited.needsFft, visited.needsDac,
                          rank(visited.id), cache);
      cache.entries := cache.entries[visited := count];
    } else {
      count := 0;
    }
  }

  /** The `map(..).sum()` over a device's outputs: the counts from each output with the
      flags of the visited key, taken in any order, filling the table as it goes. */
  method SumOutputs(machines: Graph, ghost rank: string -> nat, outputs: set<string>, needsFft: bool,
                    needsDac: bool, ghost bound: nat, cache: PathCache)
    returns (total: nat)
    requires Ranked(machines, rank) && cache.Sound(machines, rank)
    requires forall o :: o in outputs ==> rank(o) < bound
    modifies cache
    ensures total == SumPaths(machines, rank, outputs, needsFft, needsDac, bound)
    ensures cache.Sound(machines, rank)
    ensures forall k :: k in old(cache.entries) ==> k in cache.entries && cache.entries[k] == old(cache.entries[k])
    ensures forall o :: o in outputs && o != "out" && Visit(CacheKey(o, needsFft, needsDac)).id in machines ==>
                          Visit(CacheKey(o, needsFft, needsDac)) in cache.entries
    decreases bound, 0
  {
    var remaining := outputs;
    total := 0;
    while remaining != {}
      invariant remaining <= outputs
      invariant cache.Sound(machines, rank)
      invariant forall k :: k in old(cache.entries) ==> k in cache.entries && cache.entries[k] == old(cache.entries[k])
      invariant total + SumPaths(machines, rank, remaining, needsFft, needsDac, bound)
             == SumPaths(machines, rank, outputs, needsFft, needsDac, bound)
      invariant forall o :: o in outputs - remaining && o != "out" && Visit(CacheKey(o, needsFft, needsDac)).id in machines ==>
                              Visit(CacheKey(o, needsFft, needsDac)) in cache.entries
      decreases |remaining|
    {
      var o :| o in remaining;
      SumPathsAny(machines, rank, remaining, needsFft, needsDac, bound, o);
      var c := FollowPath(machines, rank, CacheKey(o, needsFft, needsDac), cache);
      total := total + c;
      remaining := remaining - {o};
    }
  }

  // ---------------------------------------------------------------------------
  // The program

  /** The device map read from the input, or `None` when a line panics. */
  function ParseDevices(input: string): Option<Graph> {
    match ParseNodes(Text.Lines(input))
    case None => None
    case Some(nodes) => Some(Devices(nodes))
  }

  /** Both answers: all routes from `you`, and the routes from `svr` through `dac` and `fft`. */
  ghost function Evaluate(input: string, rank: string -> nat): Option<(nat, nat)>
    requires ParseDevices(input).Some? ==> Ranked(ParseDevices(input).value, rank)
  {
    match ParseDevices(input)
    case None => None
    case Some(g) =>
      Some((Paths(g, rank, CacheKey("you", false, false)), Paths(g, rank, CacheKey("svr", true, true))))
  }

  /** The two answers count exactly the routes the puzzle asks for. */
  lemma EvaluateCountsRoutes(input: string, rank: string -> nat)
    requires ParseDevices(input).Some? && Ranked(ParseDevices(input).value, rank)
    ensures Evaluate(input, rank).Some?
    ensures Evaluate(input, rank).value.0 == |Walks(ParseDevices(input).value, rank, CacheKey("you", false, false))|
    ensures Evaluate(input, rank).value.1 == |Walks(ParseDevices(input).value, rank, CacheKey("svr", true, true))|
    ensures forall w :: (w in Walks(ParseDevices(input).value, rank, CacheKey("svr", true, true))
                         <==> Walk(ParseDevices(input).value, w, CacheKey("svr", true, true)))
  {
    var g := ParseDevices(input).value;
    PathsCountWalks(g, rank, CacheKey("you", false, false));
    PathsCountWalks(g, rank, CacheKey("svr", true, true));
  }

  /** `main`: both counts, each with a fresh table. */
  method Main11(input: string, ghost rank: string -> nat) returns (result: Option<(nat, nat)>)
    requires ParseDevices(input).Some? ==> Ranked(ParseDevices(input).value, rank)
    ensures result == Evaluate(input, rank)
  {
    var parsed := ParseNodes(Text.Lines(input));
    if parsed.None? {
      return None;
    }
    var machines := Devices(parsed.value);
    var you := CacheKey("you", false, false);
    var cache := new PathCache();
    var paths := FollowPath(machines, rank, you, cache);
    var svr := CacheKey("svr", true, true);
    var cache2 := new PathCache();
    var pathsPart2 := FollowPath(machines, rank, svr, cache2);
    return Some((paths, pathsPart2));
  }
}
