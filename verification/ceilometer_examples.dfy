/** The parser's own test vectors, stated as lemmas about the model. */
module CeilometerExamples {
  import opened Wrappers
  import opened OrderedDict
  import opened Spans
  import TreeBuilder

  /** A node of the tree test: only its ids and `started` matter. */
  function Node(traceId: string, parentId: string, started: int): Span {
    Span(traceId, parentId, Info("", "", "", "", [], started, 0))
  }

  const N2 := Node("2", "0", 1)
  const N1 := Node("1", "0", 0)
  const N21 := Node("21", "2", 6)
  const N22 := Node("22", "2", 7)
  const N11 := Node("11", "1", 1)
  const N113 := Node("113", "11", 3)
  const N112 := Node("112", "11", 2)
  const N114 := Node("114", "11", 5)

  /** The input map of the complex-tree test, in its insertion order. */
  const ComplexNodes: seq<Span> := [N2, N1, N21, N22, N11, N113, N112, N114]

  lemma ComplexIds()
    ensures TreeBuilder.Ids(ComplexNodes) == {"2", "1", "21", "22", "11", "113", "112", "114"}
  {
    var ids := TreeBuilder.Ids(ComplexNodes);
    assert ComplexNodes[0].traceId == "2" && ComplexNodes[1].traceId == "1";
    assert ComplexNodes[2].traceId == "21" && ComplexNodes[3].traceId == "22";
    assert ComplexNodes[4].traceId == "11" && ComplexNodes[5].traceId == "113";
    assert ComplexNodes[6].traceId == "112" && ComplexNodes[7].traceId == "114";
  }

  /** `WithParent` on the complex-tree input, record by record. */
  lemma ComplexChildren(k: string)
    ensures TreeBuilder.WithParent(ComplexNodes, k)
         == (if k == "0" then [N2, N1] else if k == "1" then [N11] else if k == "2" then [N21, N22]
             else if k == "11" then [N113, N112, N114] else [])
  {
    assert ComplexNodes == [N2, N1, N21, N22] + [N11, N113, N112, N114];
    TreeBuilder.WithParentAppend([N2, N1, N21, N22], [N11, N113, N112, N114], k);
    FirstChildren(k);
    SecondChildren(k);
    if k == "0" || k == "2" {
      assert k != "1" && k != "11";
    }
  }

  /** `WithParent` on the first four records of the complex-tree input. */
  lemma FirstChildren(k: string)
    ensures TreeBuilder.WithParent([N2, N1, N21, N22], k)
         == (if k == "0" then [N2, N1] else if k == "2" then [N21, N22] else [])
  {
    assert [N2] == [] + [N2];
    TreeBuilder.WithParentSnoc([], N2, k);
    assert [N2, N1] == [N2] + [N1];
    TreeBuilder.WithParentSnoc([N2], N1, k);
    assert [N2, N1, N21] == [N2, N1] + [N21];
    TreeBuilder.WithParentSnoc([N2, N1], N21, k);
    assert [N2, N1, N21, N22] == [N2, N1, N21] + [N22];
    TreeBuilder.WithParentSnoc([N2, N1, N21], N22, k);
  }

  /** `WithParent` on the last four records of the complex-tree input. */
  lemma SecondChildren(k: string)
    ensures TreeBuilder.WithParent([N11, N113, N112, N114], k)
         == (if k == "1" then [N11] else if k == "11" then [N113, N112, N114] else [])
  {
    assert [N11] == [] + [N11];
    TreeBuilder.WithParentSnoc([], N11, k);
    assert [N11, N113] == [N11] + [N113];
    TreeBuilder.WithParentSnoc([N11], N113, k);
    assert [N11, N113, N112] == [N11, N113] + [N112];
    TreeBuilder.WithParentSnoc([N11, N113], N112, k);
    assert [N11, N113, N112, N114] == [N11, N113, N112] + [N114];
    TreeBuilder.WithParentSnoc([N11, N113, N112], N114, k);
  }

  /** Only the two records under `"0"` have no parent among the keys. */
  lemma ComplexOrphans()
    ensures TreeBuilder.Orphans(ComplexNodes, TreeBuilder.Ids(ComplexNodes)) == [N2, N1]
  {
    ComplexIds();
    OrphansUnder(TreeBuilder.Ids(ComplexNodes));
  }

  lemma OrphansUnder(keys: set<string>)
    requires "0" !in keys && "1" in keys && "2" in keys && "11" in keys
    ensures TreeBuilder.Orphans(ComplexNodes, keys) == [N2, N1]
  {
    assert [N2] == [] + [N2];
    TreeBuilder.OrphansSnoc([], N2, keys);
    assert [N2, N1] == [N2] + [N1];
    TreeBuilder.OrphansSnoc([N2], N1, keys);
    assert [N2, N1, N21] == [N2, N1] + [N21];
    TreeBuilder.OrphansSnoc([N2, N1], N21, keys);
    assert [N2, N1, N21, N22] == [N2, N1, N21] + [N22];
    TreeBuilder.OrphansSnoc([N2, N1, N21], N22, keys);
    assert [N2, N1, N21, N22, N11] == [N2, N1, N21, N22] + [N11];
    TreeBuilder.OrphansSnoc([N2, N1, N21, N22], N11, keys);
    assert [N2, N1, N21, N22, N11, N113] == [N2, N1, N21, N22, N11] + [N113];
    TreeBuilder.OrphansSnoc([N2, N1, N21, N22, N11], N113, keys);
    assert [N2, N1, N21, N22, N11, N113, N112] == [N2, N1, N21, N22, N11, N113] + [N112];
    TreeBuilder.OrphansSnoc([N2, N1, N21, N22, N11, N113], N112, keys);
    assert [N2, N1, N21, N22, N11, N113, N112, N114] == [N2, N1, N21, N22, N11, N113, N112] + [N114];
    TreeBuilder.OrphansSnoc([N2, N1, N21, N22, N11, N113, N112], N114, keys);
  }

  /** The lists the builder sorts, in map order and sorted. */
  lemma ComplexSorts()
    ensures TreeBuilder.SortByStart([N2, N1]) == [N1, N2]
    ensures TreeBuilder.SortByStart([N11]) == [N11]
    ensures TreeBuilder.SortByStart([N21, N22]) == [N21, N22]
    ensures TreeBuilder.SortByStart([N113, N112, N114]) == [N112, N113, N114]
  {
    SortOne(N1);
    SortOne(N11);
    SortOne(N22);
    SortOne(N114);
    assert [N2, N1][1..] == [N1];
    assert TreeBuilder.SortByStart([N2, N1]) == TreeBuilder.Insert(N2, [N1]);
    assert [N1][1..] == [];
    assert TreeBuilder.Insert(N2, [N1]) == [N1] + TreeBuilder.Insert(N2, []);
    assert [N21, N22][1..] == [N22];
    assert TreeBuilder.SortByStart([N21, N22]) == TreeBuilder.Insert(N21, [N22]);
    assert [N112, N114][1..] == [N114];
    assert TreeBuilder.SortByStart([N112, N114]) == TreeBuilder.Insert(N112, [N114]) == [N112, N114];
    assert [N113, N112, N114][1..] == [N112, N114];
    assert TreeBuilder.SortByStart([N113, N112, N114]) == TreeBuilder.Insert(N113, [N112, N114]);
    assert TreeBuilder.Insert(N113, [N112, N114]) == [N112] + TreeBuilder.Insert(N113, [N114]);
    assert TreeBuilder.Insert(N113, [N114]) == [N113, N114];
  }

  lemma SortOne(n: Span)
    ensures TreeBuilder.SortByStart([n]) == [n]
  {
    assert [n][1..] == [];
  }

  /** The linked, sorted forest of the complex-tree input: `1` and `2` on
      top, every key mapped to its sorted children. */
  lemma BuildComplexForest()
    ensures var f := TreeBuilder.BuildTree(ComplexNodes);
      && f.top == [N1, N2]
      && f.children.Keys == {"2", "1", "21", "22", "11", "113", "112", "114"}
      && f.children["1"] == [N11]
      && f.children["2"] == [N21, N22]
      && f.children["11"] == [N112, N113, N114]
      && f.children["21"] == [] && f.children["22"] == []
      && f.children["112"] == [] && f.children["113"] == [] && f.children["114"] == []
  {
    ComplexIds();
    ComplexOrphans();
    ComplexSorts();
    assert TreeBuilder.SortByStart([]) == [];
    ComplexChildren("1");
    ComplexChildren("2");
    ComplexChildren("11");
    ComplexChildren("21");
    ComplexChildren("22");
    ComplexChildren("112");
    ComplexChildren("113");
    ComplexChildren("114");
  }

  /** The nested result the complex-tree test expects: `1` before `2`
      (started 0 and 1), `11` under `1` with `112`, `113`, `114` under it
      in start order, and `21`, `22` under `2`. */
  lemma BuildComplexTree()
    ensures TreeBuilder.Nested(ComplexNodes)
         == [Tree(N1, [Tree(N11, [Tree(N112, []), Tree(N113, []), Tree(N114, [])])]),
             Tree(N2, [Tree(N21, []), Tree(N22, [])])]
  {
    BuildComplexForest();
    var f := TreeBuilder.BuildTree(ComplexNodes);
    assert TreeBuilder.Nested(ComplexNodes) == TreeBuilder.ExpandAll(f, [N1, N2], 8);
    TreeBuilder.ExpandLeaf(f, N112, 6);
    TreeBuilder.ExpandLeaf(f, N113, 6);
    TreeBuilder.ExpandLeaf(f, N114, 6);
    TreeBuilder.ExpandLeaf(f, N21, 7);
    TreeBuilder.ExpandLeaf(f, N22, 7);
    TreeBuilder.ExpandThree(f, N112, N113, N114, 6);
    TreeBuilder.ExpandTwo(f, N21, N22, 7);
    var t11 := Tree(N11, [Tree(N112, []), Tree(N113, []), Tree(N114, [])]);
    assert TreeBuilder.Expand(f, N11, 7) == t11;
    TreeBuilder.ExpandOne(f, N11, 7);
    assert TreeBuilder.Expand(f, N1, 8) == Tree(N1, [t11]);
    assert TreeBuilder.Expand(f, N2, 8) == Tree(N2, [Tree(N21, []), Tree(N22, [])]);
    TreeBuilder.ExpandTwo(f, N1, N2, 8);
  }
}
