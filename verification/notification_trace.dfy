/** The rest of the parser's notification test: the five events fold into
    three records, resolve into spans and nest into the expected trace. The
    fold and the nesting are stated for any strictly increasing instants;
    only the final lemma plugs in the test's timestamps. */
module NotificationTrace {
  import opened Wrappers
  import opened OrderedDict
  import opened Spans
  import opened Notifications
  import TreeBuilder
  import opened NotificationStamps
  import opened NotificationExamples

  function Batch(t1: string, t2: string, t3: string, t4: string, t5: string,
                 s1: int, s2: int, s3: int, s4: int, s5: int): seq<Parsed> {
    [Parsed1(t1, s1), Parsed2(t2, s2), Parsed3(t3, s3), Parsed4(t4, s4), Parsed5(t5, s5)]
  }

  /** Folding the batch: the POST request never stops, the GET request
      stops before it starts, the database call does both; the range runs
      from the first event to the last. */
  lemma FoldBatch(t1: string, t2: string, t3: string, t4: string, t5: string,
                  s1: int, s2: int, s3: int, s4: int, s5: int)
    requires s1 < s2 < s3 < s4 < s5
    ensures Aggregate(Batch(t1, t2, t3, t4, t5, s1, s2, s3, s4, s5)) == Stage5(s1, s2, s3, s4, s5)
  {
    var q := [Parsed1(t1, s1), Parsed2(t2, s2), Parsed3(t3, s3), Parsed4(t4, s4)];
    FoldFour(t1, t2, t3, t4, s1, s2, s3, s4);
    assert Batch(t1, t2, t3, t4, t5, s1, s2, s3, s4, s5) == q + [Parsed5(t5, s5)];
    AggregateSnoc(q, Parsed5(t5, s5));
    Fold5(t5, s1, s2, s3, s4, s5);
  }

  lemma FoldFour(t1: string, t2: string, t3: string, t4: string, s1: int, s2: int, s3: int, s4: int)
    requires s1 < s2 < s3 < s4
    ensures Aggregate([Parsed1(t1, s1), Parsed2(t2, s2), Parsed3(t3, s3), Parsed4(t4, s4)]) == Stage4(s1, s2, s3, s4)
  {
    var q := [Parsed1(t1, s1), Parsed2(t2, s2), Parsed3(t3, s3)];
    FoldThree(t1, t2, t3, s1, s2, s3);
    assert [Parsed1(t1, s1), Parsed2(t2, s2), Parsed3(t3, s3), Parsed4(t4, s4)] == q + [Parsed4(t4, s4)];
    AggregateSnoc(q, Parsed4(t4, s4));
    Fold4(t4, s1, s2, s3, s4);
  }

  lemma FoldThree(t1: string, t2: string, t3: string, s1: int, s2: int, s3: int)
    requires s1 < s2 < s3
    ensures Aggregate([Parsed1(t1, s1), Parsed2(t2, s2), Parsed3(t3, s3)]) == Stage3(s1, s2, s3)
  {
    var q := [Parsed1(t1, s1), Parsed2(t2, s2)];
    FoldTwo(t1, t2, s1, s2);
    assert [Parsed1(t1, s1), Parsed2(t2, s2), Parsed3(t3, s3)] == q + [Parsed3(t3, s3)];
    AggregateSnoc(q, Parsed3(t3, s3));
    Fold3(t3, s1, s2, s3);
  }

  lemma FoldTwo(t1: string, t2: string, s1: int, s2: int)
    requires s1 < s2
    ensures Aggregate([Parsed1(t1, s1), Parsed2(t2, s2)]) == Stage2(s1, s2)
  {
    var q1, q2 := Parsed1(t1, s1), Parsed2(t2, s2);
    assert Aggregate([]) == Acc([], map[], None, None);
    assert [q1] == [] + [q1] && [q1, q2] == [q1] + [q2];
    AggregateSnoc([], q1);
    Fold1(t1, s1);
    AggregateSnoc([q1], q2);
    Fold2(t2, s1, s2);
  }

  /** The three spans, with their instants already in milliseconds. */
  function PostSpan(started: int, finished: int): Span {
    Span(PostId, BaseId, Info("wsgi", "keystone", "main", "ubuntu", Host + [("meta.method", "POST")], started, finished))
  }

  function GetSpan(started: int, finished: int): Span {
    Span(GetId, BaseId, Info("wsgi", "keystone", "main", "ubuntu", Host + [("meta.method", "GET")], started, finished))
  }

  function DbSpan(started: int, finished: int): Span {
    Span(DbId, PostId, Info("db", "keystone", "main", "ubuntu",
                            Host + [("meta.db.params", "[]"), ("meta.db.statement", "SELECT 1")], started, finished))
  }

  /** Resolution rebases on the POST request's start: the POST span lasts
      0 ms, the GET span keeps its inverted start and stop. */
  lemma ResolveFolded(s1: int, s2: int, s3: int, s4: int, s5: int)
    requires s1 < s2 < s3 < s4 < s5
    ensures Consistent(Stage5(s1, s2, s3, s4, s5))
    ensures Finalize(Stage5(s1, s2, s3, s4, s5))
         == [PostSpan(0, 0), GetSpan(Msec(s5 - s1), Msec(s2 - s1)), DbSpan(Msec(s3 - s1), Msec(s4 - s1))]
  {
    IdsDiffer();
    var acc := Stage5(s1, s2, s3, s4, s5);
    assert Consistent(acc);
    var spans := Finalize(acc);
    assert spans[0] == PostSpan(0, 0);
    assert spans[1] == GetSpan(Msec(s5 - s1), Msec(s2 - s1));
    assert spans[2] == DbSpan(Msec(s3 - s1), Msec(s4 - s1));
  }

  /** The linked forest of the three spans: the POST and GET spans on
      top in start order, the database span under the POST span. */
  lemma LinkSpans(g1: int, g2: int, d1: int, d2: int)
    requires 0 <= g1
    ensures var f := TreeBuilder.BuildTree([PostSpan(0, 0), GetSpan(g1, g2), DbSpan(d1, d2)]);
      && f.top == [PostSpan(0, 0), GetSpan(g1, g2)]
      && f.children.Keys == {PostId, GetId, DbId}
      && f.children[PostId] == [DbSpan(d1, d2)] && f.children[GetId] == [] && f.children[DbId] == []
  {
    IdsDiffer();
    var post, get, db := PostSpan(0, 0), GetSpan(g1, g2), DbSpan(d1, d2);
    var nodes := [post, get, db];
    var keys := {PostId, GetId, DbId};
    assert TreeBuilder.Ids(nodes) == keys by {
      assert nodes[0].traceId == PostId && nodes[1].traceId == GetId && nodes[2].traceId == DbId;
    }
    TopSpans(post, get, db, keys);
    forall k | k in keys
      ensures TreeBuilder.SortByStart(TreeBuilder.WithParent(nodes, k)) == if k == PostId then [db] else []
    {
      ChildSpans(post, get, db, k);
    }
  }

  /** Under a key that is neither of the first two spans' parent, the
      children are the third span or nothing. */
  lemma ChildSpans(post: Span, get: Span, db: Span, k: string)
    requires post.parentId != k && get.parentId != k
    ensures TreeBuilder.SortByStart(TreeBuilder.WithParent([post, get, db], k)) == if db.parentId == k then [db] else []
  {
    ThreeWithParent(post, get, db, k);
    if db.parentId == k {
      assert [db][1..] == [];
    }
  }

  /** Of three spans, only the third can sit under a key the first two do
      not name. */
  lemma ThreeWithParent(post: Span, get: Span, db: Span, k: string)
    requires post.parentId != k && get.parentId != k
    ensures TreeBuilder.WithParent([post, get, db], k) == if db.parentId == k then [db] else []
  {
    assert [post] == [] + [post] && [post, get] == [post] + [get] && [post, get, db] == [post, get] + [db];
    TreeBuilder.WithParentSnoc([], post, k);
    TreeBuilder.WithParentSnoc([post], get, k);
    TreeBuilder.WithParentSnoc([post, get], db, k);
  }

  lemma TopSpans(post: Span, get: Span, db: Span, keys: set<string>)
    requires post.parentId !in keys && get.parentId !in keys && db.parentId in keys
    requires TreeBuilder.Started(post) <= TreeBuilder.Started(get)
    ensures TreeBuilder.SortByStart(TreeBuilder.Orphans([post, get, db], keys)) == [post, get]
  {
    assert [post] == [] + [post] && [post, get] == [post] + [get] && [post, get, db] == [post, get] + [db];
    TreeBuilder.OrphansSnoc([], post, keys);
    TreeBuilder.OrphansSnoc([post], get, keys);
    TreeBuilder.OrphansSnoc([post, get], db, keys);
    SortTwo(post, get);
  }

  /** Two spans already in start order are left as they are. */
  lemma SortTwo(a: Span, b: Span)
    requires TreeBuilder.Started(a) <= TreeBuilder.Started(b)
    ensures TreeBuilder.SortByStart([a, b]) == [a, b]
  {
    assert [a, b][1..] == [b] && [b][1..] == [];
    assert TreeBuilder.SortByStart([b]) == TreeBuilder.Insert(b, []) == [b];
  }

  /** The database span nests under the POST span, and the POST span
      (started 0) comes before the GET span. */
  lemma NestSpans(g1: int, g2: int, d1: int, d2: int)
    requires 0 <= g1
    ensures TreeBuilder.Nested([PostSpan(0, 0), GetSpan(g1, g2), DbSpan(d1, d2)])
         == [Tree(PostSpan(0, 0), [Tree(DbSpan(d1, d2), [])]), Tree(GetSpan(g1, g2), [])]
  {
    var post, get, db := PostSpan(0, 0), GetSpan(g1, g2), DbSpan(d1, d2);
    LinkSpans(g1, g2, d1, d2);
    var f := TreeBuilder.BuildTree([post, get, db]);
    TreeBuilder.ExpandLeaf(f, db, 2);
    TreeBuilder.ExpandLeaf(f, get, 3);
    TreeBuilder.ExpandOne(f, db, 2);
    TreeBuilder.ExpandTwo(f, post, get, 3);
  }

  /** `ParseNotifications` once the batch has read. */
  lemma NotificationsOf(events: seq<Event>, ps: seq<Parsed>)
    requires ParseAll(events) == Ok(ps)
    ensures ParseNotifications(events) == Ok(Assemble(ps))
  {
  }

  /** The trace assembled from records that fold to `acc`. */
  lemma AssembleOf(ps: seq<Parsed>, acc: Acc)
    requires Aggregate(ps) == acc && Consistent(acc) && acc.earliest.Some?
    ensures Assemble(ps)
         == Trace(TotalInfo("total", 0, Msec(acc.latest.value - acc.earliest.value)), TreeBuilder.Nested(Finalize(acc)))
  {
  }

  /** Whatever the timestamps, as long as they increase, these five
      records assemble into this trace: total time from the first
      event to the last, the database span under the POST span. */
  lemma AssembleBatch(t1: string, t2: string, t3: string, t4: string, t5: string,
                      s1: int, s2: int, s3: int, s4: int, s5: int)
    requires s1 < s2 < s3 < s4 < s5
    ensures Assemble(Batch(t1, t2, t3, t4, t5, s1, s2, s3, s4, s5))
         == Trace(TotalInfo("total", 0, Msec(s5 - s1)),
                  [Tree(PostSpan(0, 0), [Tree(DbSpan(Msec(s3 - s1), Msec(s4 - s1)), [])]),
                   Tree(GetSpan(Msec(s5 - s1), Msec(s2 - s1)), [])])
  {
    var ps := Batch(t1, t2, t3, t4, t5, s1, s2, s3, s4, s5);
    FoldBatch(t1, t2, t3, t4, t5, s1, s2, s3, s4, s5);
    ResolveFolded(s1, s2, s3, s4, s5);
    AssembleOf(ps, Stage5(s1, s2, s3, s4, s5));
    NestSpans(Msec(s5 - s1), Msec(s2 - s1), Msec(s3 - s1), Msec(s4 - s1));
  }

  /** `test_parse_notifications`: the five events of the test give the
      trace it expects, 88 ms in total, the GET span starting at 88 ms and
      finishing at 41 ms. */
  lemma ParseTestBatch()
    ensures ParseNotifications(Events)
         == Ok(Trace(TotalInfo("total", 0, 88),
                     [Tree(PostSpan(0, 0), [Tree(DbSpan(56, 76), [])]), Tree(GetSpan(88, 41), [])]))
  {
    ReadEvents();
    NotificationsOf(Events, Ps);
    var s1, s2, s3, s4, s5 := Second + 338776, Second + 380405, Second + 395365, Second + 415486, Second + 427444;
    assert Ps == Batch(Rendered(338776), Rendered(380405), Rendered(395365), Rendered(415486), Rendered(427444),
                       s1, s2, s3, s4, s5);
    AssembleBatch(Rendered(338776), Rendered(380405), Rendered(395365), Rendered(415486), Rendered(427444),
                  s1, s2, s3, s4, s5);
    assert s5 - s1 == 88668 && s2 - s1 == 41629 && s3 - s1 == 56589 && s4 - s1 == 76710;
    TestMsecs();
  }

  /** The test's offsets from the first event, in whole milliseconds. */
  lemma TestMsecs()
    ensures Msec(88668) == 88 && Msec(41629) == 41 && Msec(56589) == 56 && Msec(76710) == 76
  {
    MsecIs(88668, 88);
    MsecIs(41629, 41);
    MsecIs(56589, 56);
    MsecIs(76710, 76);
  }

  lemma MsecIs(d: int, q: int)
    requires 0 <= d && q * 1000 <= d < (q + 1) * 1000
    ensures Msec(d) == q
  {
  }
}
