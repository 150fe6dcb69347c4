/** The expression graph behind the image generator. Each node applies an
    image operation to earlier nodes; a hashtable of `NodeTableSize`
    buckets holds exactly one copy of each distinct node (hash-consing),
    so equal sub-expressions are shared. A node pointer is an index into
    the table's arena of nodes, and `Null` stands for a NULL argument. */
module EvoNodes {
  import opened Cells

  const NodeTableSize: int := 101
  const Null: int := -1
  const ProgramLength: int := 40

  /** The operation kinds of a node (and of an instruction). */
  datatype OpKind = End | Opc0 | Opc1 | Opc2 | Mix | Constant | Color | Hwb | RotColor | Part1 | Part2 | Sprinkle

  /** The enumerator's value, as `(unsigned) node->type` sees it. */
  function KindCode(k: OpKind): u32
  {
    match k
    case End => 0
    case Opc0 => 1
    case Opc1 => 2
    case Opc2 => 3
    case Mix => 4
    case Constant => 5
    case Color => 6
    case Hwb => 7
    case RotColor => 8
    case Part1 => 9
    case Part2 => 10
    case Sprinkle => 11
  }

  /** A node: its kind, its pixel routine (an address, 0 for none), how
      many arguments it uses, its three argument pointers, the bit pattern
      of its constant, its program step, and its cached hash code. */
  datatype Node = Node(kind: OpKind, opcode: u32, arity: int, args: seq<int>,
                       constant: u32, step: int, hash: u32)

  /** 2 to the n. */
  function Pow2(n: nat): (r: nat)
    ensures 1 <= r
  {
    if n == 0 then 1 else 2 * Pow2(n - 1)
  }

  /** The low n bits of a xor b, bit by bit from the least significant. */
  function XorBits(a: nat, b: nat, n: nat): (r: nat)
    ensures r < Pow2(n)
  {
    if n == 0 then 0 else (if a % 2 == b % 2 then 0 else 1) + 2 * XorBits(a / 2, b / 2, n - 1)
  }

  /** Adding exponents multiplies powers. */
  lemma {:induction false} Pow2Add(m: nat, n: nat)
    ensures Pow2(m + n) == Pow2(m) * Pow2(n)
  {
    if m > 0 {
      Pow2Add(m - 1, n);
    }
  }

  /** 32 bits hold the `unsigned` values. */
  lemma Pow2Of32()
    ensures Pow2(32) == Two32
  {
    assert Pow2(8) == 256;
    Pow2Add(8, 8);
    Pow2Add(16, 16);
  }

  /** `a ^ b` on `unsigned`. */
  function Xor(a: u32, b: u32): u32
  {
    Pow2Of32();
    XorBits(a, b, 32)
  }

  /** `(h << 1) | (h >> 31)` on `unsigned`: the top bit comes round to
      the bottom. */
  function RotateLeft(h: u32): u32
  {
    (h % Two31) * 2 + h / Two31
  }

  /** The rotation back: the bottom bit goes round to the top. */
  function RotateRight(h: u32): u32
  {
    h / 2 + (h % 2) * Two31
  }

  /** `combine`: the hash h1 rotated left by one bit, xor h2. */
  function Combine(h1: u32, h2: u32): u32
  {
    Xor(RotateLeft(h1), h2)
  }

  /** The inverse of `Combine` in its first argument. */
  function Uncombine(r: u32, h2: u32): u32
  {
    RotateRight(Xor(r, h2))
  }

  /** Xor-ing the same value twice gives back the low n bits. */
  lemma {:induction false} XorTwice(a: nat, b: nat, n: nat)
    requires a < Pow2(n)
    ensures XorBits(XorBits(a, b, n), b, n) == a
  {
    if n > 0 {
      var bit := if a % 2 == b % 2 then 0 else 1;
      var rest := XorBits(a / 2, b / 2, n - 1);
      LowBit(bit, rest);
      assert a / 2 < Pow2(n - 1);
      XorTwice(a / 2, b / 2, n - 1);
    }
  }

  /** The lowest bit and the rest of `bit + 2 * rest`. */
  lemma LowBit(bit: int, rest: int)
    requires 0 <= bit <= 1
    ensures (bit + 2 * rest) % 2 == bit && (bit + 2 * rest) / 2 == rest
  {
  }

  /** Rotating right undoes rotating left. */
  lemma RotateRoundTrip(h: u32)
    ensures RotateRight(RotateLeft(h)) == h
  {
    var q, r := h / Two31, h % Two31;
    assert RotateLeft(h) == r * 2 + q;
  }

  /** Combining loses nothing: the old hash can be recovered, so two
      different hashes combined with the same value stay different. */
  lemma CombineRoundTrip(h1: u32, h2: u32)
    ensures Uncombine(Combine(h1, h2), h2) == h1
    ensures forall h1': u32 :: Combine(h1', h2) == Combine(h1, h2) ==> h1' == h1
  {
    UncombineCombine(h1, h2);
    forall h1': u32 | Combine(h1', h2) == Combine(h1, h2)
      ensures h1' == h1
    {
      UncombineCombine(h1', h2);
    }
  }

  lemma UncombineCombine(h1: u32, h2: u32)
    ensures Uncombine(Combine(h1, h2), h2) == h1
  {
    Pow2Of32();
    XorTwice(RotateLeft(h1), h2, 32);
    RotateRoundTrip(h1);
  }

  /** `(unsigned) step`. */
  function StepBits(step: int): u32
  {
    ToUnsigned(step)
  }

  /** Folding argument hashes into h, first argument first. */
  function FoldHashes(h: u32, hs: seq<u32>): u32
  {
    if |hs| == 0 then h else Combine(FoldHashes(h, hs[..|hs| - 1]), hs[|hs| - 1])
  }

  /** What `node_hash` computes from a node's fields and the hash codes of
      its arguments: kind and opcode, then each argument, then the
      constant's bits for a constant only, then the step for `mix` and
      `sprinkle` only. */
  function HashOf(kind: OpKind, opcode: u32, argHashes: seq<u32>, constant: u32, step: int): u32
  {
    var h0 := FoldHashes(Combine(KindCode(kind), opcode), argHashes);
    var h1 := if kind == Constant then Combine(h0, constant) else h0;
    if kind == Mix || kind == Sprinkle then Combine(h1, StepBits(step)) else h1
  }

  /** `node_equal`: same hash code, kind and opcode, the same three
      argument pointers, the same constant for constants, and the same
      step for `mix` and `sprinkle`. */
  predicate NodeEqual(n1: Node, n2: Node)
  {
    n1.hash == n2.hash && SameKey(n1, n2)
  }

  /** The part of `node_equal` that does not look at the hash code. */
  predicate SameKey(n1: Node, n2: Node)
  {
    n1.kind == n2.kind && n1.opcode == n2.opcode && n1.args == n2.args &&
    (n1.kind != Constant || n1.constant == n2.constant) &&
    ((n1.kind != Mix && n1.kind != Sprinkle) || n1.step == n2.step)
  }

  /** A node whose arguments are the first `arity` pointers, each to a
      node created before position `bound`, the rest NULL. */
  predicate WellFormed(n: Node, bound: int)
  {
    0 <= n.arity <= 3 && |n.args| == 3 &&
    forall k :: 0 <= k < 3 ==>
      (k < n.arity ==> 0 <= n.args[k] < bound) && (n.arity <= k ==> n.args[k] == Null)
  }

  /** The hash codes of n's arguments, in order. */
  function ArgHashes(nodes: seq<Node>, n: Node): (hs: seq<u32>)
    requires WellFormed(n, |nodes|)
    ensures |hs| == n.arity
  {
    seq(n.arity, k requires 0 <= k < n.arity => nodes[n.args[k]].hash)
  }

  /** n carries the hash code `node_hash` gives it. */
  predicate Hashed(nodes: seq<Node>, n: Node)
    requires WellFormed(n, |nodes|)
  {
    n.hash == HashOf(n.kind, n.opcode, ArgHashes(nodes, n), n.constant, n.step)
  }

  /** The bucket of a hash code: `hashcode % node_table_size`. */
  function BucketOf(h: u32): (b: int)
    ensures 0 <= b < NodeTableSize
  {
    h % NodeTableSize
  }

  /** Every node's arguments come before it. */
  ghost predicate Dag(nodes: seq<Node>)
  {
    forall i :: 0 <= i < |nodes| ==> WellFormed(nodes[i], i)
  }

  /** Every node's arguments come before it and its hash code is right. */
  ghost predicate Graph(nodes: seq<Node>)
  {
    Dag(nodes) && forall i {:trigger Hashed(nodes, nodes[i])} :: 0 <= i < |nodes| ==> Hashed(nodes, nodes[i])
  }

  /** Adding a node at the end changes no earlier node's argument hashes. */
  lemma {:induction false} ArgHashesFrame(nodes: seq<Node>, extra: Node, n: Node)
    requires WellFormed(n, |nodes|)
    ensures ArgHashes(nodes + [extra], n) == ArgHashes(nodes, n)
  {
    var big := nodes + [extra];
    forall k | 0 <= k < n.arity
      ensures ArgHashes(big, n)[k] == ArgHashes(nodes, n)[k]
    {
      assert big[n.args[k]] == nodes[n.args[k]];
    }
  }

  /** Appending a well-formed, correctly hashed node keeps a graph a graph. */
  lemma {:induction false} GraphGrows(nodes: seq<Node>, n: Node)
    requires Graph(nodes) && WellFormed(n, |nodes|) && Hashed(nodes, n)
    ensures Graph(nodes + [n])
  {
    var big := nodes + [n];
    forall i | 0 <= i < |big|
      ensures WellFormed(big[i], i) && Hashed(big, big[i])
    {
      if i < |nodes| {
        assert big[i] == nodes[i] && Hashed(nodes, nodes[i]);
        ArgHashesFrame(nodes, n, nodes[i]);
      } else {
        ArgHashesFrame(nodes, n, n);
      }
    }
  }

  /** The hash check at the head of `node_equal` is redundant, as its
      comment says: two correctly hashed nodes that agree on the compared
      fields have the same hash code, so `NodeEqual` is `SameKey`. */
  lemma {:induction false} HashCheckRedundant(nodes: seq<Node>, n1: Node, n2: Node)
    requires WellFormed(n1, |nodes|) && WellFormed(n2, |nodes|)
    requires Hashed(nodes, n1) && Hashed(nodes, n2)
    ensures NodeEqual(n1, n2) <==> SameKey(n1, n2)
  {
    if SameKey(n1, n2) {
      assert ArgHashes(nodes, n1) == ArgHashes(nodes, n2);
    }
  }

  /** The hash table: the arena of every node made so far and the buckets,
      each a list of node pointers with the most recently added first. */
  class NodeTable {
    var nodes: seq<Node>
    var buckets: seq<seq<int>>

    /** Every node sits in the bucket of its hash code, every bucket entry
        is a node of that bucket, and no two nodes are equal. */
    ghost predicate Valid()
      reads this
    {
      Graph(nodes) && Filed(nodes, buckets) && Unique(nodes)
    }

    /** An empty table (what `free_all_nodes` leaves). */
    constructor ()
      ensures Valid() && nodes == []
      ensures forall b :: 0 <= b < |buckets| ==> buckets[b] == []
    {
      nodes := [];
      buckets := seq(NodeTableSize, b => []);
    }

    /** `free_all_nodes`: every bucket emptied. */
    method FreeAll()
      modifies this
      ensures Valid() && nodes == []
      ensures forall b :: 0 <= b < |buckets| ==> buckets[b] == []
    {
      nodes := [];
      buckets := seq(NodeTableSize, b => []);
    }

    /** `node_hash`, with its loop over the arguments. */
    method NodeHash(n: Node) returns (h: u32)
      requires WellFormed(n, |nodes|)
      ensures h == HashOf(n.kind, n.opcode, ArgHashes(nodes, n), n.constant, n.step)
    {
      ghost var hs := ArgHashes(nodes, n);
      h := Combine(KindCode(n.kind), n.opcode);
      var i := 0;
      while i < n.arity
        invariant 0 <= i <= n.arity
        invariant h == FoldHashes(Combine(KindCode(n.kind), n.opcode), hs[..i])
      {
        assert hs[..i + 1][..i] == hs[..i];
        h := Combine(h, nodes[n.args[i]].hash);
        i := i + 1;
      }
      assert hs[..i] == hs;
      if n.kind == Constant {
        h := Combine(h, n.constant);
      }
      if n.kind == Mix || n.kind == Sprinkle {
        h := Combine(h, StepBits(n.step));
      }
    }

    /** `uniquify`: the node of the table equal to n if there is one, and
        the table unchanged; otherwise n itself, added at the end of the
        arena and at the head of its bucket. */
    method Uniquify(n: Node) returns (p: int)
      requires Valid() && WellFormed(n, |nodes|) && Hashed(nodes, n)
      modifies this
      ensures Valid()
      ensures 0 <= p < |nodes| && NodeEqual(nodes[p], n)
      ensures Present(old(nodes), n) ==> nodes == old(nodes) && buckets == old(buckets)
      ensures !Present(old(nodes), n) ==>
        p == |old(nodes)| && nodes == old(nodes) + [n] &&
        buckets == old(buckets)[BucketOf(n.hash) := [p] + old(buckets)[BucketOf(n.hash)]]
    {
      p := Lookup(n);
      if p < 0 {
        p := |nodes|;
        Add(n);
      }
    }

    /** The search loop of `uniquify`: walks n's bucket for an equal node. */
    method Lookup(n: Node) returns (p: int)
      requires Filed(nodes, buckets)
      ensures p < 0 <==> !Present(nodes, n)
      ensures 0 <= p ==> p < |nodes| && NodeEqual(nodes[p], n)
    {
      var b := BucketOf(n.hash);
      var bucket := buckets[b];
      assert forall j :: 0 <= j < |bucket| ==> 0 <= bucket[j] < |nodes|;
      var k := 0;
      while k < |bucket|
        invariant 0 <= k <= |bucket|
        invariant forall j :: 0 <= j < k ==> !NodeEqual(nodes[bucket[j]], n)
      {
        var q := bucket[k];
        if NodeEqual(nodes[q], n) {
          return q;
        }
        k := k + 1;
      }
      NotPresent(b, n);
      return -1;
    }

    /** No node outside n's bucket can equal n, so searching the bucket
        is enough. */
    lemma NotPresent(b: int, n: Node)
      requires Filed(nodes, buckets) && b == BucketOf(n.hash)
      requires forall j :: 0 <= j < |buckets[b]| ==> !NodeEqual(nodes[buckets[b][j]], n)
      ensures !Present(nodes, n)
    {
      forall i | 0 <= i < |nodes|
        ensures !NodeEqual(nodes[i], n)
      {
        if nodes[i].hash == n.hash {
          assert i in buckets[b];
          var j :| 0 <= j < |buckets[b]| && buckets[b][j] == i;
          assert !NodeEqual(nodes[buckets[b][j]], n);
        }
      }
    }

    /** The tail of `uniquify`: n goes at the end of the arena and at the
        head of its bucket. */
    method Add(n: Node)
      requires Valid() && WellFormed(n, |nodes|) && Hashed(nodes, n) && !Present(nodes, n)
      modifies this
      ensures Valid()
      ensures nodes == old(nodes) + [n]
      ensures buckets == old(buckets)[BucketOf(n.hash) := [|old(nodes)|] + old(buckets)[BucketOf(n.hash)]]
    {
      var b := BucketOf(n.hash);
      GraphGrows(nodes, n);
      UniqueGrows(nodes, n);
      FiledGrows(nodes, buckets, n);
      buckets := buckets[b := [|nodes|] + buckets[b]];
      nodes := nodes + [n];
    }

    /** `make_node`: a node with the given fields, hashed and made unique.
        The result agrees with the request on every field `node_equal`
        compares. */
    method MakeNode(kind: OpKind, opcode: u32, step: int, constant: u32, arity: int, a0: int, a1: int, a2: int)
      returns (p: int)
      requires Valid() && WellFormed(Node(kind, opcode, arity, [a0, a1, a2], constant, step, 0), |nodes|)
      modifies this
      ensures Valid() && old(nodes) <= nodes
      ensures 0 <= p < |nodes|
      ensures SameKey(nodes[p], Node(kind, opcode, arity, [a0, a1, a2], constant, step, 0))
      ensures Denote(nodes, p) == Mk(kind, opcode, constant, step, ArgTerms(old(nodes), Node(kind, opcode, arity, [a0, a1, a2], constant, step, 0), |old(nodes)|))
    {
      var n := Node(kind, opcode, arity, [a0, a1, a2], constant, step, 0);
      var h := NodeHash(n);
      n := n.(hash := h);
      assert ArgHashes(nodes, n) == ArgHashes(nodes, n.(hash := 0));
      ghost var before := nodes;
      p := Uniquify(n);
      DenoteMade(nodes, p, n);
      ArgTermsGrow(before, nodes, n);
      assert ArgTerms(before, n, |before|) == ArgTerms(before, n.(hash := 0), |before|);
    }
  }

  /** Every node sits in the bucket of its hash code and every bucket
      entry is a node of that bucket. */
  ghost predicate Filed(nodes: seq<Node>, buckets: seq<seq<int>>)
  {
    |buckets| == NodeTableSize &&
    (forall b, k :: 0 <= b < |buckets| && 0 <= k < |buckets[b]| ==>
       0 <= buckets[b][k] < |nodes| && BucketOf(nodes[buckets[b][k]].hash) == b) &&
    (forall i {:trigger BucketOf(nodes[i].hash)} :: 0 <= i < |nodes| ==> i in buckets[BucketOf(nodes[i].hash)])
  }

  /** Filing a new node at the head of its bucket keeps the buckets right. */
  lemma FiledGrows(nodes: seq<Node>, buckets: seq<seq<int>>, n: Node)
    requires Filed(nodes, buckets)
    ensures Filed(nodes + [n], buckets[BucketOf(n.hash) := [|nodes|] + buckets[BucketOf(n.hash)]])
  {
    var p, b := |nodes|, BucketOf(n.hash);
    var big, filed := nodes + [n], buckets[b := [p] + buckets[b]];
    assert big[p] == n;
    forall c, k | 0 <= c < |filed| && 0 <= k < |filed[c]|
      ensures 0 <= filed[c][k] < |big| && BucketOf(big[filed[c][k]].hash) == c
    {
      if c == b && k > 0 {
        assert filed[c][k] == buckets[c][k - 1];
      }
    }
    forall i | 0 <= i < |big|
      ensures i in filed[BucketOf(big[i].hash)]
    {
      if i < p {
        assert big[i] == nodes[i] && i in buckets[BucketOf(nodes[i].hash)];
      }
    }
  }

  /** Some node of the arena is `node_equal` to n. */
  ghost predicate Present(nodes: seq<Node>, n: Node)
  {
    exists i :: 0 <= i < |nodes| && NodeEqual(nodes[i], n)
  }

  /** No two nodes of the arena are `node_equal`. */
  ghost predicate Unique(nodes: seq<Node>)
  {
    forall i, j {:trigger NodeEqual(nodes[i], nodes[j])} :: 0 <= i < |nodes| && 0 <= j < |nodes| && i != j ==> !NodeEqual(nodes[i], nodes[j])
  }

  /** Adding a node equal to none of the arena keeps the arena unique. */
  lemma {:induction false} UniqueGrows(nodes: seq<Node>, n: Node)
    requires Unique(nodes) && !Present(nodes, n)
    ensures Unique(nodes + [n])
  {
    var big := nodes + [n];
    forall i, j | 0 <= i < |big| && 0 <= j < |big| && i != j
      ensures !NodeEqual(big[i], big[j])
    {
      if i == |nodes| {
        assert big[j] == nodes[j] && !NodeEqual(nodes[j], n);
      } else if j == |nodes| {
        assert big[i] == nodes[i] && !NodeEqual(nodes[i], n);
      } else {
        assert big[i] == nodes[i] && big[j] == nodes[j];
      }
    }
  }

  /** q can be reached from p by following argument pointers. */
  ghost predicate Reaches(nodes: seq<Node>, p: int, q: int)
    requires Dag(nodes) && 0 <= p < |nodes|
    decreases p
  {
    p == q || exists k :: 0 <= k < nodes[p].arity && Reaches(nodes, nodes[p].args[k], q)
  }

  /** The nodes reachable from r, g or b. */
  ghost function ReachableFrom(nodes: seq<Node>, r: int, g: int, b: int): set<int>
    requires Dag(nodes) && 0 <= r < |nodes| && 0 <= g < |nodes| && 0 <= b < |nodes|
  {
    set q | 0 <= q < |nodes| && (Reaches(nodes, r, q) || Reaches(nodes, g, q) || Reaches(nodes, b, q))
  }

  /** No pointer occurs twice. */
  ghost predicate Distinct(s: seq<int>)
  {
    forall i, j :: 0 <= i < j < |s| ==> s[i] != s[j]
  }

  /** Every pointer is a node of the arena. */
  ghost predicate InArena(s: seq<int>, n: int)
  {
    forall i :: 0 <= i < |s| ==> 0 <= s[i] < n
  }

  /** Every pointer of s is in the set `room`. */
  ghost predicate Within(s: seq<int>, room: set<int>)
  {
    forall i :: 0 <= i < |s| ==> s[i] in room
  }

  /** Every node p reaches is in the set `room`. */
  ghost predicate ReachIn(nodes: seq<Node>, p: int, room: set<int>)
    requires Dag(nodes) && 0 <= p < |nodes|
  {
    forall q :: 0 <= q < |nodes| && Reaches(nodes, p, q) ==> q in room
  }

  /** Every node of s outside `pending` has its arguments in s too. */
  ghost predicate ClosedExcept(nodes: seq<Node>, s: seq<int>, pending: set<int>)
    requires Dag(nodes) && InArena(s, |nodes|)
  {
    forall i, k :: 0 <= i < |s| && s[i] !in pending && 0 <= k < nodes[s[i]].arity ==> nodes[s[i]].args[k] in s
  }

  /** `adjoin`: whether p is among the first numSeen entries of `seen`,
      searching from the end; if not, p is appended. */
  method Adjoin(p: int, seen: array<int>, numSeen: int) returns (found: bool, numSeen': int)
    requires 0 <= numSeen <= seen.Length
    requires p !in seen[..numSeen] ==> numSeen < seen.Length
    modifies seen
    ensures found <==> p in old(seen[..numSeen])
    ensures found ==> numSeen' == numSeen && seen[..] == old(seen[..])
    ensures !found ==> numSeen' == numSeen + 1 && seen[..] == old(seen[..])[numSeen := p]
  {
    var i := numSeen;
    while 0 < i
      invariant 0 <= i <= numSeen
      invariant p !in seen[i..numSeen]
    {
      if p == seen[i - 1] {
        return true, numSeen;
      }
      assert seen[i - 1..numSeen] == [seen[i - 1]] + seen[i..numSeen];
      i := i - 1;
    }
    seen[numSeen] := p;
    return false, numSeen + 1;
  }

  /** `count_unvisited_nodes`: the number of nodes reachable from p that
      were not yet in `seen`, each of which is appended. The new entries are
      distinct, reachable from p, and every entry outside the ancestors
      still pending in the recursion has its arguments entered too. */
  method CountUnvisited(nodes: seq<Node>, p: int, seen: array<int>, numSeen: int, ghost pending: set<int>, ghost room: set<int>)
    returns (count: int, numSeen': int)
    requires Dag(nodes) && 0 <= p < |nodes| && |room| <= seen.Length
    requires ReachIn(nodes, p, room)
    requires 0 <= numSeen <= seen.Length && Within(seen[..numSeen], room)
    requires Distinct(seen[..numSeen]) && InArena(seen[..numSeen], |nodes|)
    requires ClosedExcept(nodes, seen[..numSeen], pending)
    modifies seen
    ensures numSeen <= numSeen' <= seen.Length && count == numSeen' - numSeen
    ensures seen[..numSeen] == old(seen[..numSeen])
    ensures Distinct(seen[..numSeen']) && InArena(seen[..numSeen'], |nodes|)
    ensures ClosedExcept(nodes, seen[..numSeen'], pending)
    ensures p in seen[..numSeen']
    ensures AllReach(nodes, p, seen[..numSeen'], numSeen)
    ensures Within(seen[..numSeen'], room)
    decreases p, 2
  {
    if p !in seen[..numSeen] {
      Pigeonhole(seen[..numSeen], room, p);
    }
    var found;
    found, numSeen' := Adjoin(p, seen, numSeen);
    if found {
      return 0, numSeen';
    }
    assert seen[..numSeen'] == old(seen[..numSeen]) + [p];
    Appended(nodes, old(seen[..numSeen]), p, pending);
    var c;
    c, numSeen' := CountArguments(nodes, p, seen, numSeen, numSeen', pending, room);
    KeptPrefix(old(seen[..numSeen]) + [p], seen[..numSeen'], numSeen);
    Released(nodes, seen[..numSeen'], pending, p);
    count := 1 + c;
  }

  /** The loop of `count_unvisited_nodes` over p's arguments, once p
      itself has been entered at position `start`. */
  method CountArguments(nodes: seq<Node>, p: int, seen: array<int>, start: int, numSeen: int, ghost pending: set<int>, ghost room: set<int>)
    returns (count: int, numSeen': int)
    requires Dag(nodes) && 0 <= p < |nodes| && |room| <= seen.Length
    requires ReachIn(nodes, p, room)
    requires 0 <= start < numSeen <= seen.Length && seen[start] == p && Within(seen[..numSeen], room)
    requires Distinct(seen[..numSeen]) && InArena(seen[..numSeen], |nodes|)
    requires ClosedExcept(nodes, seen[..numSeen], pending + {p})
    requires AllReach(nodes, p, seen[..numSeen], start)
    modifies seen
    ensures numSeen <= numSeen' <= seen.Length && count == numSeen' - numSeen
    ensures seen[..numSeen] == old(seen[..numSeen])
    ensures Distinct(seen[..numSeen']) && InArena(seen[..numSeen'], |nodes|)
    ensures ClosedExcept(nodes, seen[..numSeen'], pending + {p})
    ensures Entered(nodes, p, nodes[p].arity, seen[..numSeen'])
    ensures AllReach(nodes, p, seen[..numSeen'], start)
    ensures Within(seen[..numSeen'], room)
    decreases p, 1
  {
    ghost var mine := pending + {p};
    count, numSeen' := 0, numSeen;
    var k := 0;
    while k < nodes[p].arity
      invariant 0 <= k <= nodes[p].arity
      invariant numSeen <= numSeen' <= seen.Length && count == numSeen' - numSeen
      invariant seen[..numSeen] == old(seen[..numSeen])
      invariant Distinct(seen[..numSeen']) && InArena(seen[..numSeen'], |nodes|)
      invariant ClosedExcept(nodes, seen[..numSeen'], mine)
      invariant Entered(nodes, p, k, seen[..numSeen'])
      invariant AllReach(nodes, p, seen[..numSeen'], start)
      invariant Within(seen[..numSeen'], room)
    {
      var c, n' := CountArgument(nodes, p, k, seen, start, numSeen', mine, room);
      KeptPrefix(old(seen[..numSeen]), seen[..numSeen'], numSeen);
      count, numSeen' := count + c, n';
      k := k + 1;
    }
  }

  /** One turn of that loop: the count for argument k. */
  method CountArgument(nodes: seq<Node>, p: int, k: int, seen: array<int>, start: int, numSeen: int, ghost mine: set<int>, ghost room: set<int>)
    returns (count: int, numSeen': int)
    requires Dag(nodes) && 0 <= p < |nodes| && 0 <= k < nodes[p].arity && |room| <= seen.Length
    requires ReachIn(nodes, p, room)
    requires 0 <= start < numSeen <= seen.Length && Within(seen[..numSeen], room)
    requires Distinct(seen[..numSeen]) && InArena(seen[..numSeen], |nodes|)
    requires ClosedExcept(nodes, seen[..numSeen], mine)
    requires Entered(nodes, p, k, seen[..numSeen]) && AllReach(nodes, p, seen[..numSeen], start)
    modifies seen
    ensures numSeen <= numSeen' <= seen.Length && count == numSeen' - numSeen
    ensures seen[..numSeen] == old(seen[..numSeen])
    ensures Distinct(seen[..numSeen']) && InArena(seen[..numSeen'], |nodes|)
    ensures ClosedExcept(nodes, seen[..numSeen'], mine)
    ensures Entered(nodes, p, k + 1, seen[..numSeen']) && AllReach(nodes, p, seen[..numSeen'], start)
    ensures Within(seen[..numSeen'], room)
    decreases p, 0
  {
    ghost var before := seen[..numSeen];
    ArgumentReachIn(nodes, p, k, room);
    count, numSeen' := CountUnvisited(nodes, nodes[p].args[k], seen, numSeen, mine, room);
    ChildStep(nodes, p, k, start, before, seen[..numSeen']);
  }

  /** Entering a new node p keeps `seen` distinct and closed, with p
      pending until its arguments are entered. */
  lemma {:induction false} Appended(nodes: seq<Node>, s: seq<int>, p: int, pending: set<int>)
    requires Dag(nodes) && 0 <= p < |nodes| && p !in s
    requires Distinct(s) && InArena(s, |nodes|) && ClosedExcept(nodes, s, pending)
    ensures Distinct(s + [p]) && InArena(s + [p], |nodes|)
    ensures ClosedExcept(nodes, s + [p], pending + {p})
    ensures Entered(nodes, p, 0, s + [p]) && AllReach(nodes, p, s + [p], |s|)
  {
    var t := s + [p];
    assert t[|s|] == p;
    forall i, k | 0 <= i < |t| && t[i] !in pending + {p} && 0 <= k < nodes[t[i]].arity
      ensures nodes[t[i]].args[k] in t
    {
      assert i < |s| && t[i] == s[i];
      assert nodes[s[i]].args[k] in s;
    }
  }

  /** Every entry of s from lo on is reachable from p. */
  ghost predicate AllReach(nodes: seq<Node>, p: int, s: seq<int>, lo: int)
    requires Dag(nodes) && 0 <= p < |nodes|
  {
    forall i :: lo <= i < |s| && 0 <= i ==> Reaches(nodes, p, s[i])
  }

  /** p's first k arguments are in s. */
  ghost predicate Entered(nodes: seq<Node>, p: int, k: int, s: seq<int>)
    requires Dag(nodes) && 0 <= p < |nodes| && 0 <= k <= nodes[p].arity
  {
    forall j :: 0 <= j < k ==> nodes[p].args[j] in s
  }

  /** One turn of `count_unvisited_nodes`' loop over the arguments: the
      count for argument k keeps what was entered and only enters nodes
      that p reaches. */
  lemma {:induction false} ChildStep(nodes: seq<Node>, p: int, k: int, lo: int, before: seq<int>, after: seq<int>)
    requires Dag(nodes) && 0 <= p < |nodes| && 0 <= k < nodes[p].arity
    requires 0 <= lo <= |before| <= |after| && after[..|before|] == before
    requires Entered(nodes, p, k, before) && AllReach(nodes, p, before, lo)
    requires nodes[p].args[k] in after && AllReach(nodes, nodes[p].args[k], after, |before|)
    ensures Entered(nodes, p, k + 1, after) && AllReach(nodes, p, after, lo)
  {
    KeptPrefix(before, after, 0);
    forall i | lo <= i < |after|
      ensures Reaches(nodes, p, after[i])
    {
      if i < |before| {
        assert after[i] == before[i];
      } else {
        assert Reaches(nodes, nodes[p].args[k], after[i]);
      }
    }
  }

  /** Growing `seen` behind an unchanged prefix keeps what was in it. */
  lemma {:induction false} KeptPrefix(before: seq<int>, after: seq<int>, m: int)
    requires 0 <= m <= |before| <= |after| && after[..|before|] == before
    ensures after[..m] == before[..m]
    ensures forall x :: x in before ==> x in after
  {
    forall x | x in before
      ensures x in after
    {
      var i :| 0 <= i < |before| && before[i] == x;
      assert after[i] == x;
    }
  }

  /** Once all of p's arguments are entered, p need no longer be pending. */
  lemma {:induction false} Released(nodes: seq<Node>, s: seq<int>, pending: set<int>, p: int)
    requires Dag(nodes) && 0 <= p < |nodes| && InArena(s, |nodes|)
    requires ClosedExcept(nodes, s, pending + {p})
    requires forall j :: 0 <= j < nodes[p].arity ==> nodes[p].args[j] in s
    ensures ClosedExcept(nodes, s, pending)
  {
  }

  /** A set closed under arguments that holds p holds everything p reaches. */
  lemma {:induction false} ClosedHoldsReach(nodes: seq<Node>, s: seq<int>, p: int, q: int)
    requires Dag(nodes) && InArena(s, |nodes|) && ClosedExcept(nodes, s, {})
    requires 0 <= p < |nodes| && p in s && Reaches(nodes, p, q)
    ensures q in s
    decreases p
  {
    if p != q {
      var k :| 0 <= k < nodes[p].arity && Reaches(nodes, nodes[p].args[k], q);
      var i :| 0 <= i < |s| && s[i] == p;
      assert nodes[p].args[k] in s;
      ClosedHoldsReach(nodes, s, nodes[p].args[k], q);
    }
  }

  /** `count_reachable_nodes`: the number of distinct nodes reachable from
      r, g and b, each counted once. The source relies on those nodes
      fitting in `seen`, which has room for five nodes per instruction; the
      rest of the node table may be larger. */
  method CountReachable(nodes: seq<Node>, r: int, g: int, b: int) returns (count: int)
    requires Dag(nodes) && 0 <= r < |nodes| && 0 <= g < |nodes| && 0 <= b < |nodes|
    requires |ReachableFrom(nodes, r, g, b)| <= 5 * ProgramLength
    ensures count == |ReachableFrom(nodes, r, g, b)|
  {
    ghost var room := ReachableFrom(nodes, r, g, b);
    var seen := new int[5 * ProgramLength];
    var numSeen := 0;
    count := 0;
    var c;
    c, numSeen := CountUnvisited(nodes, r, seen, numSeen, {}, room);
    count := count + c;
    ghost var s1 := seen[..numSeen];
    c, numSeen := CountUnvisited(nodes, g, seen, numSeen, {}, room);
    count := count + c;
    KeptPrefix(s1, seen[..numSeen], 0);
    ghost var s2 := seen[..numSeen];
    c, numSeen := CountUnvisited(nodes, b, seen, numSeen, {}, room);
    count := count + c;
    KeptPrefix(s2, seen[..numSeen], 0);
    SeenIsReachable(nodes, s1, s2, seen[..numSeen], r, g, b);
  }

  /** The entries left in `seen` by the three counts are exactly the
      reachable nodes, and there are as many as the entries. */
  lemma {:induction false} SeenIsReachable(nodes: seq<Node>, s1: seq<int>, s2: seq<int>, s: seq<int>, r: int, g: int, b: int)
    requires Dag(nodes) && 0 <= r < |nodes| && 0 <= g < |nodes| && 0 <= b < |nodes|
    requires Distinct(s) && InArena(s, |nodes|) && ClosedExcept(nodes, s, {})
    requires |s1| <= |s2| <= |s| && s2[..|s1|] == s1 && s[..|s2|] == s2
    requires r in s1 && g in s2 && b in s
    requires AllReach(nodes, r, s1, 0) && AllReach(nodes, g, s2, |s1|) && AllReach(nodes, b, s, |s2|)
    ensures |s| == |ReachableFrom(nodes, r, g, b)|
  {
    KeptPrefix(s1, s2, 0);
    KeptPrefix(s2, s, 0);
    var want := ReachableFrom(nodes, r, g, b);
    var have := set x | x in s;
    forall q | q in want
      ensures q in have
    {
      if Reaches(nodes, r, q) {
        ClosedHoldsReach(nodes, s, r, q);
      } else if Reaches(nodes, g, q) {
        ClosedHoldsReach(nodes, s, g, q);
      } else {
        ClosedHoldsReach(nodes, s, b, q);
      }
    }
    forall q | q in have
      ensures q in want
    {
      var i :| 0 <= i < |s| && s[i] == q;
      if i < |s1| {
        assert s1[i] == q && Reaches(nodes, r, q);
      } else if i < |s2| {
        assert s2[i] == q && Reaches(nodes, g, q);
      } else {
        assert Reaches(nodes, b, q);
      }
    }
    assert have == want;
    DistinctCard(s);
  }

  /** A sequence without repeats has as many elements as its set. */
  lemma {:induction false} DistinctCard(s: seq<int>)
    requires Distinct(s)
    ensures |set x | x in s| == |s|
  {
    if |s| > 0 {
      var rest := s[1..];
      DistinctCard(rest);
      assert (set x | x in s) == (set x | x in rest) + {s[0]};
      assert s[0] !in rest;
    }
  }

  /** Distinct pointers, all in `room`, that miss one of its members
      number fewer than `room` has: `seen` has room for one more. */
  lemma {:induction false} Pigeonhole(s: seq<int>, room: set<int>, x: int)
    requires Distinct(s) && Within(s, room) && x in room && x !in s
    ensures |s| < |room|
  {
    var have := (set y | y in s) + {x};
    assert have <= room;
    DistinctCard(s);
    assert room == have + (room - have);
  }

  /** An argument of p reaches only nodes that p reaches. */
  lemma ArgumentReachIn(nodes: seq<Node>, p: int, k: int, room: set<int>)
    requires Dag(nodes) && 0 <= p < |nodes| && 0 <= k < nodes[p].arity
    requires ReachIn(nodes, p, room)
    ensures ReachIn(nodes, nodes[p].args[k], room)
  {
    forall q | 0 <= q < |nodes| && Reaches(nodes, nodes[p].args[k], q)
      ensures q in room
    {
      assert Reaches(nodes, p, q);
    }
  }

  /** The expression a node stands for, as a tree: its kind, its opcode,
      its constant if it is a constant, its step if it is `mix` or
      `sprinkle`, and the expressions of its arguments. These are the
      fields `node_equal` compares. */
  datatype Term = Term(kind: OpKind, opcode: u32, constant: u32, step: int, args: seq<Term>)

  /** The expression built by applying an operation to argument expressions. */
  function Mk(kind: OpKind, opcode: u32, constant: u32, step: int, args: seq<Term>): Term
  {
    Term(kind, opcode, if kind == Constant then constant else 0,
         if kind == Mix || kind == Sprinkle then step else 0, args)
  }

  /** The expression node p stands for. */
  ghost function Denote(nodes: seq<Node>, p: int): Term
    requires Dag(nodes) && 0 <= p < |nodes|
    decreases p, 1
  {
    var n := nodes[p];
    Mk(n.kind, n.opcode, n.constant, n.step, ArgTerms(nodes, n, p))
  }

  /** The expressions of n's arguments, all of them nodes below `bound`. */
  ghost function ArgTerms(nodes: seq<Node>, n: Node, bound: int): (ts: seq<Term>)
    requires Dag(nodes) && WellFormed(n, bound) && bound <= |nodes|
    ensures |ts| == n.arity
    decreases bound, 0
  {
    seq(n.arity, k requires 0 <= k < n.arity => Denote(nodes, n.args[k]))
  }

  /** Appending nodes changes no existing node's expression. */
  lemma {:induction false} DenoteGrows(nodes: seq<Node>, more: seq<Node>, p: int)
    requires Dag(nodes) && Dag(more) && nodes <= more && 0 <= p < |nodes|
    ensures Denote(more, p) == Denote(nodes, p)
    decreases p
  {
    var n := nodes[p];
    assert more[p] == n;
    forall k | 0 <= k < n.arity
      ensures Denote(more, n.args[k]) == Denote(nodes, n.args[k])
    {
      DenoteGrows(nodes, more, n.args[k]);
    }
    assert ArgTerms(more, n, p) == ArgTerms(nodes, n, p);
  }

  /** ... and no argument list's expressions either. */
  lemma {:induction false} ArgTermsGrow(nodes: seq<Node>, more: seq<Node>, n: Node)
    requires Dag(nodes) && Dag(more) && nodes <= more && WellFormed(n, |nodes|)
    ensures ArgTerms(more, n, |more|) == ArgTerms(nodes, n, |nodes|)
  {
    forall k | 0 <= k < n.arity
      ensures Denote(more, n.args[k]) == Denote(nodes, n.args[k])
    {
      DenoteGrows(nodes, more, n.args[k]);
    }
  }

  /** A node that agrees with n on the fields `node_equal` compares stands
      for n's expression. */
  lemma {:induction false} DenoteMade(nodes: seq<Node>, p: int, n: Node)
    requires Dag(nodes) && 0 <= p < |nodes| && WellFormed(n, |nodes|) && SameKey(nodes[p], n)
    ensures Denote(nodes, p) == Mk(n.kind, n.opcode, n.constant, n.step, ArgTerms(nodes, n, |nodes|))
  {
    SameArity(nodes[p], n, |nodes|);
    assert ArgTerms(nodes, nodes[p], p) == ArgTerms(nodes, n, |nodes|);
  }

  /** Well-formed nodes with the same argument pointers have the same arity. */
  lemma {:induction false} SameArity(n1: Node, n2: Node, bound: int)
    requires WellFormed(n1, bound) && WellFormed(n2, bound) && n1.args == n2.args
    ensures n1.arity == n2.arity
  {
    if n1.arity < 3 {
      assert n2.args[n1.arity] == Null;
    }
    if n2.arity < 3 {
      assert n1.args[n2.arity] == Null;
    }
  }

  /** Hash-consing works: two different nodes of a valid table never stand
      for the same expression, so every expression is built once. */
  lemma {:induction false} DenoteInjective(nodes: seq<Node>, p: int, q: int)
    requires Graph(nodes) && Unique(nodes) && 0 <= p < |nodes| && 0 <= q < |nodes|
    requires Denote(nodes, p) == Denote(nodes, q)
    ensures p == q
    decreases p + q
  {
    var np, nq := nodes[p], nodes[q];
    var tp, tq := ArgTerms(nodes, np, p), ArgTerms(nodes, nq, q);
    assert tp == Denote(nodes, p).args && tq == Denote(nodes, q).args;
    forall k | 0 <= k < 3
      ensures np.args[k] == nq.args[k]
    {
      if k < np.arity {
        assert tp[k] == tq[k];
        DenoteInjective(nodes, np.args[k], nq.args[k]);
      }
    }
    assert np.args == nq.args;
    HashCheckRedundant(nodes, np, nq);
  }
}
