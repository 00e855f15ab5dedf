/** `_build_tree`: links span records into a forest by `parent_id` and
    orders every children list, and the list of top-level spans, by
    `info.started` with a stable sort.

    The records arrive as an insertion-ordered map from trace id to record;
    here that is a sequence of spans whose trace ids are the keys. Python
    shares the same node objects between the map and the children lists;
    the model keeps that linkage de-aliased, as a `Forest` holding the
    top-level list and one children list per trace id. */
module TreeBuilder {
  import opened Spans

  function Started(n: Span): int {
    n.info.started
  }

  /** The map's keys. */
  function Ids(nodes: seq<Span>): set<string> {
    set i | 0 <= i < |nodes| :: nodes[i].traceId
  }

  predicate DistinctIds(nodes: seq<Span>) {
    forall i, j :: 0 <= i < j < |nodes| ==> nodes[i].traceId != nodes[j].traceId
  }

  // ---------------------------------------------------------------------
  // Reference partition of the records

  /** The records whose `parent_id` is `k`, in map order. */
  function WithParent(nodes: seq<Span>, k: string): seq<Span> {
    if |nodes| == 0 then []
    else
      var last := nodes[|nodes| - 1];
      assert nodes == nodes[..|nodes| - 1] + [last];
      WithParent(nodes[..|nodes| - 1], k) + if last.parentId == k then [last] else []
  }

  lemma WithParentSnoc(nodes: seq<Span>, last: Span, k: string)
    ensures WithParent(nodes + [last], k) == WithParent(nodes, k) + if last.parentId == k then [last] else []
  {
    assert (nodes + [last])[..|nodes|] == nodes;
  }

  /** Selecting by parent distributes over concatenation. */
  lemma {:induction false} WithParentAppend(a: seq<Span>, b: seq<Span>, k: string)
    ensures WithParent(a + b, k) == WithParent(a, k) + WithParent(b, k)
  {
    if |b| == 0 {
      assert a + b == a;
    } else {
      var init := b[..|b| - 1];
      var last := b[|b| - 1];
      WithParentAppend(a, init, k);
      assert b == init + [last];
      assert a + b == (a + init) + [last];
      WithParentSnoc(a + init, last, k);
      WithParentSnoc(init, last, k);
    }
  }

  /** `WithParent` keeps every record naming `k` as often as it occurs,
      and nothing else. */
  lemma {:induction false} WithParentCount(nodes: seq<Span>, k: string, n: Span)
    ensures multiset(WithParent(nodes, k))[n] == if n.parentId == k then multiset(nodes)[n] else 0
  {
    if |nodes| > 0 {
      var prefix := nodes[..|nodes| - 1];
      WithParentCount(prefix, k, n);
      assert nodes == prefix + [nodes[|nodes| - 1]];
    }
  }

  /** The records whose `parent_id` is not a key, in map order. */
  function Orphans(nodes: seq<Span>, keys: set<string>): seq<Span> {
    if |nodes| == 0 then []
    else
      var last := nodes[|nodes| - 1];
      assert nodes == nodes[..|nodes| - 1] + [last];
      Orphans(nodes[..|nodes| - 1], keys) + if last.parentId !in keys then [last] else []
  }

  lemma OrphansSnoc(nodes: seq<Span>, last: Span, keys: set<string>)
    ensures Orphans(nodes + [last], keys) == Orphans(nodes, keys) + if last.parentId !in keys then [last] else []
  {
    assert (nodes + [last])[..|nodes|] == nodes;
  }

  /** `Orphans` keeps every record whose parent is not a key as often as it
      occurs, and nothing else. */
  lemma {:induction false} OrphansCount(nodes: seq<Span>, keys: set<string>, n: Span)
    ensures multiset(Orphans(nodes, keys))[n] == if n.parentId !in keys then multiset(nodes)[n] else 0
  {
    if |nodes| > 0 {
      var prefix := nodes[..|nodes| - 1];
      OrphansCount(prefix, keys, n);
      assert nodes == prefix + [nodes[|nodes| - 1]];
    }
  }

  // ---------------------------------------------------------------------
  // Stable sort by `info.started` (Python's `list.sort` / `sorted`)

  predicate SortedByStart(s: seq<Span>) {
    forall i, j :: 0 <= i < j < |s| ==> Started(s[i]) <= Started(s[j])
  }

  /** The elements of `s` that started at `v`, in order. A sort is stable
      when it keeps every such subsequence unchanged. */
  function WithStart(s: seq<Span>, v: int): seq<Span> {
    if |s| == 0 then []
    else (if Started(s[0]) == v then [s[0]] else []) + WithStart(s[1..], v)
  }

  /** Inserts `x` before the first element that starts no earlier than it. */
  function Insert(x: Span, s: seq<Span>): seq<Span> {
    if |s| == 0 || Started(x) <= Started(s[0]) then [x] + s
    else [s[0]] + Insert(x, s[1..])
  }

  lemma {:induction false} InsertCount(x: Span, s: seq<Span>)
    ensures multiset(Insert(x, s)) == multiset(s) + multiset{x}
  {
    if |s| > 0 && Started(x) > Started(s[0]) {
      InsertCount(x, s[1..]);
      assert s == [s[0]] + s[1..];
    }
  }

  /** A lower bound on `x` and on `s` bounds the result of inserting. */
  lemma {:induction false} InsertBound(x: Span, s: seq<Span>, lo: int)
    requires lo <= Started(x)
    requires forall i :: 0 <= i < |s| ==> lo <= Started(s[i])
    ensures forall i :: 0 <= i < |Insert(x, s)| ==> lo <= Started(Insert(x, s)[i])
  {
    if |s| > 0 && Started(x) > Started(s[0]) {
      InsertBound(x, s[1..], lo);
      var r := Insert(x, s);
      assert r == [s[0]] + Insert(x, s[1..]);
      forall i | 0 <= i < |r| ensures lo <= Started(r[i]) {
        if i > 0 {
          assert r[i] == Insert(x, s[1..])[i - 1];
        }
      }
    }
  }

  lemma {:induction false} InsertSorted(x: Span, s: seq<Span>)
    requires SortedByStart(s)
    ensures SortedByStart(Insert(x, s))
  {
    if |s| > 0 && Started(x) > Started(s[0]) {
      var tail := s[1..];
      var rest := Insert(x, tail);
      assert SortedByStart(tail);
      InsertSorted(x, tail);
      InsertBound(x, tail, Started(s[0]));
      var r := [s[0]] + rest;
      forall i, j | 0 <= i < j < |r| ensures Started(r[i]) <= Started(r[j]) {
        assert r[j] == rest[j - 1];
        if i > 0 {
          assert r[i] == rest[i - 1];
        }
      }
    }
  }

  /** Insertion sort, stable because an element goes in front of every
      later element with the same start. */
  function SortByStart(s: seq<Span>): seq<Span> {
    if |s| == 0 then [] else Insert(s[0], SortByStart(s[1..]))
  }

  /** The sort returns a permutation of its input. */
  lemma {:induction false} SortPermutes(s: seq<Span>)
    ensures multiset(SortByStart(s)) == multiset(s)
  {
    if |s| > 0 {
      SortPermutes(s[1..]);
      InsertCount(s[0], SortByStart(s[1..]));
      assert s == [s[0]] + s[1..];
      assert multiset(s) == multiset(s[1..]) + multiset{s[0]};
    }
  }

  /** The sort returns a sorted list. */
  lemma {:induction false} SortSorted(s: seq<Span>)
    ensures SortedByStart(SortByStart(s))
  {
    if |s| > 0 {
      SortSorted(s[1..]);
      InsertSorted(s[0], SortByStart(s[1..]));
    }
  }

  lemma {:induction false} InsertStable(x: Span, s: seq<Span>, v: int)
    ensures WithStart(Insert(x, s), v) == (if Started(x) == v then [x] else []) + WithStart(s, v)
  {
    if |s| == 0 || Started(x) <= Started(s[0]) {
      assert ([x] + s)[1..] == s;
    } else {
      InsertStable(x, s[1..], v);
      InsertStableStep(x, s, v);
    }
  }

  /** The step of `InsertStable` where `x` goes past the head of `s`. */
  lemma InsertStableStep(x: Span, s: seq<Span>, v: int)
    requires |s| > 0 && Started(x) > Started(s[0])
    requires WithStart(Insert(x, s[1..]), v) == (if Started(x) == v then [x] else []) + WithStart(s[1..], v)
    ensures WithStart(Insert(x, s), v) == (if Started(x) == v then [x] else []) + WithStart(s, v)
  {
    var tail := s[1..];
    var rest := Insert(x, tail);
    var r := [s[0]] + rest;
    assert r[0] == s[0] && r[1..] == rest;
    var head := if Started(s[0]) == v then [s[0]] else [];
    assert WithStart(r, v) == head + WithStart(rest, v);
    assert WithStart(s, v) == head + WithStart(tail, v);
    if Started(x) == v {
      assert head == [];
    }
  }

  /** The sort is stable: spans that start at the same millisecond keep
      their input order. */
  lemma {:induction false} SortStable(s: seq<Span>, v: int)
    ensures WithStart(SortByStart(s), v) == WithStart(s, v)
  {
    if |s| > 0 {
      SortStable(s[1..], v);
      InsertStable(s[0], SortByStart(s[1..]), v);
    }
  }

  // ---------------------------------------------------------------------
  // The linking loop and the final sort

  /** The top-level list and each trace id's children list. */
  datatype Forest = Forest(top: seq<Span>, children: map<string, seq<Span>>)

  /** `d.setdefault(k, [])`. */
  function SetDefault(m: map<string, seq<Span>>, k: string): map<string, seq<Span>> {
    if k in m then m else m[k := []]
  }

  /** The linking loop run over the first records of the map: each node
      gets a children list, then goes to the end of its parent's list when
      its `parent_id` is a key of the whole map, and to the end of the
      top-level list otherwise. */
  function Link(nodes: seq<Span>, keys: set<string>): Forest {
    if |nodes| == 0 then Forest([], map[])
    else
      var acc := Link(nodes[..|nodes| - 1], keys);
      var node := nodes[|nodes| - 1];
      var ch := SetDefault(acc.children, node.traceId);
      if node.parentId in keys then
        var ch' := SetDefault(ch, node.parentId);
        Forest(acc.top, ch'[node.parentId := ch'[node.parentId] + [node]])
      else
        Forest(acc.top + [node], ch)
  }

  /** The parent ids the loop has met among the first records, when they
      are keys. */
  function LinkedParents(nodes: seq<Span>, keys: set<string>): set<string> {
    set i | 0 <= i < |nodes| && nodes[i].parentId in keys :: nodes[i].parentId
  }

  lemma IdsSnoc(nodes: seq<Span>, keys: set<string>)
    requires |nodes| > 0
    ensures Ids(nodes) == Ids(nodes[..|nodes| - 1]) + {nodes[|nodes| - 1].traceId}
    ensures LinkedParents(nodes, keys) == LinkedParents(nodes[..|nodes| - 1], keys)
              + if nodes[|nodes| - 1].parentId in keys then {nodes[|nodes| - 1].parentId} else {}
  {
    var prefix := nodes[..|nodes| - 1];
    assert forall i :: 0 <= i < |prefix| ==> prefix[i] == nodes[i];
  }

  /** The loop puts at top level exactly the orphans, in map order. */
  lemma {:induction false} LinkTop(nodes: seq<Span>, keys: set<string>)
    ensures Link(nodes, keys).top == Orphans(nodes, keys)
  {
    if |nodes| > 0 {
      LinkTop(nodes[..|nodes| - 1], keys);
    }
  }

  /** The loop gives a children list to every record and to every parent
      key it meets, and to nothing else. */
  lemma {:induction false} LinkKeys(nodes: seq<Span>, keys: set<string>)
    ensures Link(nodes, keys).children.Keys == Ids(nodes) + LinkedParents(nodes, keys)
  {
    if |nodes| > 0 {
      LinkKeys(nodes[..|nodes| - 1], keys);
      IdsSnoc(nodes, keys);
    }
  }

  /** Under a key the loop has collected exactly the children seen so far,
      in map order. */
  lemma {:induction false} LinkChildren(nodes: seq<Span>, keys: set<string>, k: string)
    requires k in Link(nodes, keys).children
    ensures Link(nodes, keys).children[k] == if k in keys then WithParent(nodes, k) else []
  {
    if |nodes| > 0 {
      var prefix := nodes[..|nodes| - 1];
      var node := nodes[|nodes| - 1];
      var acc := Link(prefix, keys);
      if k in acc.children {
        LinkChildren(prefix, keys, k);
      }
      var base := if k in acc.children then acc.children[k] else [];
      assert base == if k in keys then WithParent(prefix, k) else [] by {
        if k !in acc.children { LinkFreshKey(prefix, keys, k); }
      }
      var ch := SetDefault(acc.children, node.traceId);
      assert k in ch ==> ch[k] == base;
      if node.parentId in keys {
        var ch' := SetDefault(ch, node.parentId);
        assert k in ch' ==> ch'[k] == base;
        assert Link(nodes, keys).children == ch'[node.parentId := ch'[node.parentId] + [node]];
        if node.parentId == k {
          assert Link(nodes, keys).children[k] == base + [node];
        } else {
          assert Link(nodes, keys).children[k] == base;
        }
      } else {
        assert Link(nodes, keys).children == ch;
      }
      assert WithParent(nodes, k) == WithParent(prefix, k) + if node.parentId == k then [node] else [];
    }
  }

  /** A key the loop has not met yet has no children among the records. */
  lemma {:induction false} LinkFreshKey(nodes: seq<Span>, keys: set<string>, k: string)
    requires k !in Link(nodes, keys).children
    ensures WithParent(nodes, k) == [] || k !in keys
  {
    if |nodes| > 0 {
      LinkFreshKey(nodes[..|nodes| - 1], keys, k);
    }
  }

  /** `_build_tree`: the linked forest with every children list and the
      top-level list sorted by start. A children list holds exactly the
      records naming that key as parent; the top-level list holds exactly
      the records whose parent is not a key; both in sorted map order. */
  function BuildTree(nodes: seq<Span>): (f: Forest)
    ensures f.top == SortByStart(Orphans(nodes, Ids(nodes)))
    ensures f.children.Keys == Ids(nodes)
    ensures forall k :: k in f.children ==> f.children[k] == SortByStart(WithParent(nodes, k))
  {
    var keys := Ids(nodes);
    var linked := Link(nodes, keys);
    LinkTop(nodes, keys);
    LinkKeys(nodes, keys);
    assert linked.children.Keys == keys;
    forall k | k in linked.children ensures linked.children[k] == WithParent(nodes, k) {
      LinkChildren(nodes, keys, k);
    }
    Forest(SortByStart(linked.top), map k | k in linked.children :: SortByStart(linked.children[k]))
  }

  // ---------------------------------------------------------------------
  // Properties of the forest

  lemma {:induction false} DistinctOnce(nodes: seq<Span>, i: int)
    requires DistinctIds(nodes) && 0 <= i < |nodes|
    ensures multiset(nodes)[nodes[i]] == 1
  {
    var prefix := nodes[..|nodes| - 1];
    var last := nodes[|nodes| - 1];
    assert nodes == prefix + [last];
    if i == |nodes| - 1 {
      assert last !in prefix by {
        forall j | 0 <= j < |prefix| ensures prefix[j] != last {
          assert prefix[j].traceId == nodes[j].traceId != last.traceId;
        }
      }
    } else {
      assert DistinctIds(prefix);
      DistinctOnce(prefix, i);
      assert nodes[i] == prefix[i] != last;
    }
  }

  /** Every record is placed exactly once: in its parent's children list
      when its `parent_id` is a key, at top level otherwise, and nowhere
      else. */
  lemma PlacedExactlyOnce(nodes: seq<Span>, i: int)
    requires DistinctIds(nodes) && 0 <= i < |nodes|
    ensures var f := BuildTree(nodes); var n := nodes[i];
      && (n.parentId in Ids(nodes) ==> multiset(f.children[n.parentId])[n] == 1 && n !in f.top)
      && (n.parentId !in Ids(nodes) ==> multiset(f.top)[n] == 1)
      && forall k :: k in f.children && k != n.parentId ==> n !in f.children[k]
  {
    DistinctOnce(nodes, i);
    PlacedAtTop(nodes, nodes[i]);
    if nodes[i].parentId in Ids(nodes) {
      PlacedUnderParent(nodes, nodes[i]);
    }
    PlacedNowhereElse(nodes, nodes[i]);
  }

  lemma PlacedAtTop(nodes: seq<Span>, n: Span)
    ensures multiset(BuildTree(nodes).top)[n] == if n.parentId in Ids(nodes) then 0 else multiset(nodes)[n]
  {
    SortPermutes(Orphans(nodes, Ids(nodes)));
    OrphansCount(nodes, Ids(nodes), n);
  }

  lemma PlacedUnderParent(nodes: seq<Span>, n: Span)
    requires n.parentId in Ids(nodes)
    ensures n.parentId in BuildTree(nodes).children
    ensures multiset(BuildTree(nodes).children[n.parentId])[n] == multiset(nodes)[n]
  {
    var f := BuildTree(nodes);
    SortPermutes(WithParent(nodes, n.parentId));
    WithParentCount(nodes, n.parentId, n);
  }

  lemma PlacedNowhereElse(nodes: seq<Span>, n: Span)
    ensures forall k :: k in BuildTree(nodes).children && k != n.parentId ==> n !in BuildTree(nodes).children[k]
  {
    var f := BuildTree(nodes);
    forall k | k in f.children && k != n.parentId ensures n !in f.children[k] {
      SortPermutes(WithParent(nodes, k));
      WithParentCount(nodes, k, n);
    }
  }

  /** Every list the builder returns is sorted by start, and ties keep the
      map's order. */
  lemma ForestSorted(nodes: seq<Span>, v: int)
    ensures var f := BuildTree(nodes);
      && SortedByStart(f.top)
      && WithStart(f.top, v) == WithStart(Orphans(nodes, Ids(nodes)), v)
      && forall k :: k in f.children ==>
           SortedByStart(f.children[k]) && WithStart(f.children[k], v) == WithStart(WithParent(nodes, k), v)
  {
    var f := BuildTree(nodes);
    SortStable(Orphans(nodes, Ids(nodes)), v);
    SortSorted(Orphans(nodes, Ids(nodes)));
    forall k | k in f.children
      ensures SortedByStart(f.children[k]) && WithStart(f.children[k], v) == WithStart(WithParent(nodes, k), v)
    {
      SortStable(WithParent(nodes, k), v);
      SortSorted(WithParent(nodes, k));
    }
  }

  /** Every top-level record of the result is an input record whose
      parent is not among the keys. */
  lemma TopFromInput(nodes: seq<Span>)
    ensures forall n :: n in BuildTree(nodes).top ==> n in nodes && n.parentId !in Ids(nodes)
  {
    forall n | n in BuildTree(nodes).top ensures n in nodes && n.parentId !in Ids(nodes) {
      PlacedAtTop(nodes, n);
    }
  }

  /** Every record in a children list is an input record naming that key
      as its parent. */
  lemma ChildFromInput(nodes: seq<Span>, k: string, n: Span)
    requires k in BuildTree(nodes).children && n in BuildTree(nodes).children[k]
    ensures n in nodes && n.parentId == k
  {
    var c := BuildTree(nodes).children[k];
    SortPermutes(WithParent(nodes, k));
    WithParentCount(nodes, k, n);
  }

  // ---------------------------------------------------------------------
  // The nested view

  /** The children list the forest holds for a span: its list under the
      span's trace id, or none when that id is not a key. */
  function ChildrenOf(f: Forest, n: Span): seq<Span> {
    if n.traceId in f.children then f.children[n.traceId] else []
  }

  /** A span with its descendants, down to `fuel` levels. */
  function Expand(f: Forest, n: Span, fuel: nat): (t: Tree)
    decreases fuel, 0
    ensures t.span == n
  {
    if fuel == 0 then Tree(n, [])
    else Tree(n, ExpandAll(f, ChildrenOf(f, n), fuel - 1))
  }

  function ExpandAll(f: Forest, ns: seq<Span>, fuel: nat): (ts: seq<Tree>)
    decreases fuel, |ns| + 1
    ensures |ts| == |ns| && forall i :: 0 <= i < |ns| ==> ts[i].span == ns[i]
  {
    if |ns| == 0 then [] else [Expand(f, ns[0], fuel)] + ExpandAll(f, ns[1..], fuel)
  }

  /** The value `_build_tree` returns, as nested JSON: the top-level spans,
      each carrying its children. A chain of parents can be at most as long
      as the number of records, which bounds the depth. */
  function Nested(nodes: seq<Span>): (ts: seq<Tree>)
    ensures |ts| == |BuildTree(nodes).top|
    ensures forall i :: 0 <= i < |ts| ==> ts[i].span == BuildTree(nodes).top[i]
  {
    var f := BuildTree(nodes);
    ExpandAll(f, f.top, |nodes|)
  }

  lemma {:induction false} ExpandAllAt(f: Forest, ns: seq<Span>, fuel: nat, i: int)
    requires 0 <= i < |ns|
    ensures ExpandAll(f, ns, fuel)[i] == Expand(f, ns[i], fuel)
    decreases i
  {
    if i > 0 {
      ExpandAllAt(f, ns[1..], fuel, i - 1);
    }
  }

  /** A nested tree that follows the forest all the way down: every node
      carries, in order, exactly the spans the forest lists under its id,
      and so does each of them. */
  predicate Follows(f: Forest, t: Tree)
    decreases t
  {
    && |t.children| == |ChildrenOf(f, t.span)|
    && forall i :: 0 <= i < |t.children| ==>
         t.children[i].span == ChildrenOf(f, t.span)[i] && Follows(f, t.children[i])
  }

  /** A line of descent: a top-level record, then a child of it, then a
      child of that child, and so on. */
  predicate Descent(nodes: seq<Span>, c: seq<Span>) {
    && |c| > 0 && c[0].parentId !in Ids(nodes)
    && (forall i :: 0 <= i < |c| ==> c[i] in nodes)
    && forall i :: 0 < i < |c| ==> c[i].parentId == c[i - 1].traceId
  }

  /** Two different records of the map have different trace ids. */
  lemma IdsSeparate(nodes: seq<Span>, a: Span, b: Span)
    requires DistinctIds(nodes) && a in nodes && b in nodes && a != b
    ensures a.traceId != b.traceId
  {
    var i :| 0 <= i < |nodes| && nodes[i] == a;
    var j :| 0 <= j < |nodes| && nodes[j] == b;
    if i < j {
      assert nodes[i].traceId != nodes[j].traceId;
    } else {
      assert nodes[j].traceId != nodes[i].traceId;
    }
  }

  /** A line of descent never comes back to a record: going up from two
      equal records would meet the top-level record again below itself,
      whose parent is not a key. */
  lemma {:induction false} DescentNoRepeat(nodes: seq<Span>, c: seq<Span>, i: int, j: int)
    requires DistinctIds(nodes) && Descent(nodes, c) && 0 <= i < j < |c|
    ensures c[i] != c[j]
    decreases i
  {
    if i == 0 {
      assert c[j - 1] in nodes;
      assert c[j].parentId in Ids(nodes);
    } else {
      DescentNoRepeat(nodes, c, i - 1, j - 1);
      IdsSeparate(nodes, c[i - 1], c[j - 1]);
      assert c[i].parentId != c[j].parentId;
    }
  }

  /** Distinct records drawn from `nodes` are no more than `nodes`. */
  lemma {:induction false} DistinctWithin(c: seq<Span>, nodes: seq<Span>)
    requires forall i, j :: 0 <= i < j < |c| ==> c[i] != c[j]
    requires forall i :: 0 <= i < |c| ==> c[i] in nodes
    ensures |c| <= |nodes|
  {
    if |c| > 0 {
      var x := c[|c| - 1];
      var k :| 0 <= k < |nodes| && nodes[k] == x;
      var rest := nodes[..k] + nodes[k + 1..];
      var front := c[..|c| - 1];
      forall i | 0 <= i < |front| ensures front[i] in rest {
        assert front[i] == c[i] != x;
        var m :| 0 <= m < |nodes| && nodes[m] == c[i];
        if m < k {
          assert rest[m] == nodes[m];
        } else {
          assert rest[m - 1] == nodes[m];
        }
      }
      DistinctWithin(front, rest);
    }
  }

  /** A line of descent is no longer than the map: the depth `Nested`
      gives itself is enough. */
  lemma DescentShort(nodes: seq<Span>, c: seq<Span>)
    requires DistinctIds(nodes) && Descent(nodes, c)
    ensures |c| <= |nodes|
  {
    forall i, j | 0 <= i < j < |c| ensures c[i] != c[j] {
      DescentNoRepeat(nodes, c, i, j);
    }
    DistinctWithin(c, nodes);
  }

  /** Every children list of `f` holds only records of `nodes` that name
      the list's key as their parent. */
  predicate ChildrenWithin(nodes: seq<Span>, f: Forest) {
    forall k, n :: k in f.children && n in f.children[k] ==> n in nodes && n.parentId == k
  }

  /** The builder's children lists hold only records naming their key. */
  lemma BuildChildrenWithin(nodes: seq<Span>, f: Forest)
    requires forall k :: k in f.children ==> f.children[k] == SortByStart(WithParent(nodes, k))
    ensures ChildrenWithin(nodes, f)
  {
    forall k, n | k in f.children && n in f.children[k] ensures n in nodes && n.parentId == k {
      SortedChildWithin(nodes, k, n);
    }
  }

  lemma SortedChildWithin(nodes: seq<Span>, k: string, n: Span)
    requires n in SortByStart(WithParent(nodes, k))
    ensures n in nodes && n.parentId == k
  {
    var w := WithParent(nodes, k);
    SortPermutes(w);
    WithParentCount(nodes, k, n);
    assert multiset(SortByStart(w))[n] > 0;
    assert multiset(w)[n] > 0;
    assert multiset(nodes)[n] > 0;
  }

  /** A child of the last record extends a line of descent. */
  lemma DescentExtend(nodes: seq<Span>, c: seq<Span>, k: Span)
    requires Descent(nodes, c) && k in nodes && k.parentId == c[|c| - 1].traceId
    ensures Descent(nodes, c + [k]) && (c + [k])[|c|] == k
  {
    var c' := c + [k];
    assert forall m :: 0 <= m < |c| ==> c'[m] == c[m];
  }

  /** `Follows` from its parts: the children's spans and each child. */
  lemma FollowsIntro(f: Forest, n: Span, ts: seq<Tree>)
    requires |ts| == |ChildrenOf(f, n)|
    requires forall i :: 0 <= i < |ts| ==> ts[i].span == ChildrenOf(f, n)[i]
    requires forall i :: 0 <= i < |ts| ==> Follows(f, ts[i])
    ensures Follows(f, Tree(n, ts))
  {
  }

  lemma FollowsAt(f: Forest, ns: seq<Span>, fuel: nat, i: int)
    requires 0 <= i < |ns| && Follows(f, Expand(f, ns[i], fuel))
    ensures Follows(f, ExpandAll(f, ns, fuel)[i])
  {
    ExpandAllAt(f, ns, fuel, i);
  }

  /** Expanding the last record of a line of descent with the fuel left at
      its depth follows the forest all the way down. */
  lemma {:induction false} ExpandFollows(nodes: seq<Span>, f: Forest, c: seq<Span>, n: Span, fuel: nat)
    requires DistinctIds(nodes) && ChildrenWithin(nodes, f)
    requires Descent(nodes, c) && n == c[|c| - 1] && fuel + |c| == |nodes| + 1
    ensures Follows(f, Expand(f, n, fuel))
    decreases fuel, 1
  {
    DescentShort(nodes, c);
    var ts := ExpandAll(f, ChildrenOf(f, n), fuel - 1);
    forall i | 0 <= i < |ts| ensures Follows(f, ts[i]) {
      ChildFollows(nodes, f, c, n, fuel, i);
    }
    FollowsIntro(f, n, ts);
  }

  /** The `i`-th child of the last record of a line of descent, expanded
      one level deeper, follows the forest too. */
  lemma {:induction false} ChildFollows(nodes: seq<Span>, f: Forest, c: seq<Span>, n: Span, fuel: nat, i: int)
    requires DistinctIds(nodes) && ChildrenWithin(nodes, f)
    requires Descent(nodes, c) && n == c[|c| - 1] && fuel + |c| == |nodes| + 1
    requires 0 <= i < |ChildrenOf(f, n)|
    ensures fuel >= 1 && Follows(f, ExpandAll(f, ChildrenOf(f, n), fuel - 1)[i])
    decreases fuel, 0
  {
    DescentShort(nodes, c);
    var kids := ChildrenOf(f, n);
    var k := kids[i];
    assert k in f.children[n.traceId];
    DescentExtend(nodes, c, k);
    ExpandFollows(nodes, f, c + [k], k, fuel - 1);
    FollowsAt(f, kids, fuel - 1, i);
  }

  /** With distinct trace ids, as a map's keys are, the nested value
      follows the forest at every depth: the depth bound never cuts a
      children list short. */
  lemma NestedFollows(nodes: seq<Span>)
    requires DistinctIds(nodes)
    ensures forall i :: 0 <= i < |Nested(nodes)| ==> Follows(BuildTree(nodes), Nested(nodes)[i])
  {
    var f := BuildTree(nodes);
    TopFromInput(nodes);
    BuildChildrenWithin(nodes, f);
    forall i | 0 <= i < |f.top| ensures Follows(f, Nested(nodes)[i]) {
      ExpandFollows(nodes, f, [f.top[i]], f.top[i], |nodes|);
      FollowsAt(f, f.top, |nodes|, i);
    }
  }

  /** The empty map gives the empty forest. */
  lemma BuildEmptyTree()
    ensures Nested([]) == []
    ensures BuildTree([]) == Forest([], map[])
  {
  }

  /** Expanding a span without children, and short lists of spans. */
  lemma ExpandLeaf(f: Forest, n: Span, fuel: nat)
    requires n.traceId in f.children && f.children[n.traceId] == []
    ensures Expand(f, n, fuel) == Tree(n, [])
  {
  }

  lemma ExpandOne(f: Forest, a: Span, fuel: nat)
    ensures ExpandAll(f, [a], fuel) == [Expand(f, a, fuel)]
  {
    assert [a][1..] == [];
  }

  lemma ExpandTwo(f: Forest, a: Span, b: Span, fuel: nat)
    ensures ExpandAll(f, [a, b], fuel) == [Expand(f, a, fuel), Expand(f, b, fuel)]
  {
    assert [a, b][1..] == [b];
    ExpandOne(f, b, fuel);
  }

  lemma ExpandThree(f: Forest, a: Span, b: Span, c: Span, fuel: nat)
    ensures ExpandAll(f, [a, b, c], fuel)
         == [Expand(f, a, fuel), Expand(f, b, fuel), Expand(f, c, fuel)]
  {
    assert [a, b, c][1..] == [b, c];
    ExpandTwo(f, b, c, fuel);
  }
}
