/** The instants of the notification test: all in one second, six
    fraction digits each. */
module NotificationStamps {
  import opened Wrappers
  import Timestamp

  /** Every instant of the batch falls in the same second. */
  function At(micro: int): Timestamp.DateTime {
    Timestamp.DateTime(2015, 12, 23, 14, 2, 22, micro)
  }

  /** The microsecond count of the batch's second, `At(0)`, which
      `SecondPlus` confirms. */
  const Second: int := 63586476142000000

  lemma DatePads()
    ensures Timestamp.Pad(2015, 4) == "2015" && Timestamp.Pad(12, 2) == "12" && Timestamp.Pad(23, 2) == "23"
  {
    assert Timestamp.Pad(2, 1) == "2";
    assert Timestamp.Pad(20, 2) == "20";
    assert Timestamp.Pad(201, 3) == "201";
    assert Timestamp.Pad(1, 1) == "1";
  }

  lemma TimePads()
    ensures Timestamp.Pad(14, 2) == "14" && Timestamp.Pad(2, 2) == "02" && Timestamp.Pad(22, 2) == "22"
  {
  }

  /** The second, rendered without a fraction. */
  lemma SecondText()
    ensures Timestamp.FormatSeconds(At(0)) == "2015-12-23T14:02:22"
  {
    DatePads();
    TimePads();
    assert "2015" + "-" == "2015-";
    assert "2015-" + "12" == "2015-12";
    assert "2015-12" + "-" == "2015-12-";
    assert "2015-12-" + "23" == "2015-12-23";
    assert "2015-12-23" + "T" == "2015-12-23T";
    assert "2015-12-23T" + "14" == "2015-12-23T14";
    assert "2015-12-23T14" + ":" == "2015-12-23T14:";
    assert "2015-12-23T14:" + "02" == "2015-12-23T14:02";
    assert "2015-12-23T14:02" + ":" == "2015-12-23T14:02:";
    assert "2015-12-23T14:02:" + "22" == "2015-12-23T14:02:22";
  }

  /** The instant `micro` microseconds into the second, rendered as
      the events carry it. */
  function Rendered(micro: int): string
    requires 0 <= micro < 1000000
  {
    Timestamp.Format(At(micro))
  }

  /** Such a rendering parses to the second's start plus `micro`. */
  lemma ParseRendered(micro: int)
    requires 0 <= micro < 1000000
    ensures Timestamp.Parse(Rendered(micro)) == Some(Second + micro)
  {
    SecondPlus(micro);
    Timestamp.ParseFormat(At(micro));
  }

  lemma SecondPlus(micro: int)
    requires 0 <= micro < 1000000
    ensures Timestamp.ToMicros(At(micro)) == Second + micro
  {
  }

  lemma RenderedIs(micro: int, frac: string)
    requires 0 <= micro < 1000000 && Timestamp.Pad(micro, 6) == frac
    ensures Rendered(micro) == "2015-12-23T14:02:22" + "." + frac
  {
    SecondText();
  }

  lemma Rendered338776()
    ensures Rendered(338776) == "2015-12-23T14:02:22.338776"
  {
    Digits338776();
    RenderedIs(338776, "338776");
    Joined338776();
  }

  lemma Digits338776()
    ensures Timestamp.Pad(338776, 6) == "338776"
  {
    assert Timestamp.Pad(3, 1) == "3";
    assert Timestamp.Pad(33, 2) == "33";
    assert Timestamp.Pad(338, 3) == "338";
    assert Timestamp.Pad(3387, 4) == "3387";
    assert Timestamp.Pad(33877, 5) == "33877";
  }

  lemma Joined338776()
    ensures "2015-12-23T14:02:22" + "." + "338776" == "2015-12-23T14:02:22.338776"
  {
  }

  lemma Rendered380405()
    ensures Rendered(380405) == "2015-12-23T14:02:22.380405"
  {
    Digits380405();
    RenderedIs(380405, "380405");
    Joined380405();
  }

  lemma Digits380405()
    ensures Timestamp.Pad(380405, 6) == "380405"
  {
    assert Timestamp.Pad(3, 1) == "3";
    assert Timestamp.Pad(38, 2) == "38";
    assert Timestamp.Pad(380, 3) == "380";
    assert Timestamp.Pad(3804, 4) == "3804";
    assert Timestamp.Pad(38040, 5) == "38040";
  }

  lemma Joined380405()
    ensures "2015-12-23T14:02:22" + "." + "380405" == "2015-12-23T14:02:22.380405"
  {
  }

  lemma Rendered395365()
    ensures Rendered(395365) == "2015-12-23T14:02:22.395365"
  {
    Digits395365();
    RenderedIs(395365, "395365");
    Joined395365();
  }

  lemma Digits395365()
    ensures Timestamp.Pad(395365, 6) == "395365"
  {
    assert Timestamp.Pad(3, 1) == "3";
    assert Timestamp.Pad(39, 2) == "39";
    assert Timestamp.Pad(395, 3) == "395";
    assert Timestamp.Pad(3953, 4) == "3953";
    assert Timestamp.Pad(39536, 5) == "39536";
  }

  lemma Joined395365()
    ensures "2015-12-23T14:02:22" + "." + "395365" == "2015-12-23T14:02:22.395365"
  {
  }

  lemma Rendered415486()
    ensures Rendered(415486) == "2015-12-23T14:02:22.415486"
  {
    Digits415486();
    RenderedIs(415486, "415486");
    Joined415486();
  }

  lemma Digits415486()
    ensures Timestamp.Pad(415486, 6) == "415486"
  {
    assert Timestamp.Pad(4, 1) == "4";
    assert Timestamp.Pad(41, 2) == "41";
    assert Timestamp.Pad(415, 3) == "415";
    assert Timestamp.Pad(4154, 4) == "4154";
    assert Timestamp.Pad(41548, 5) == "41548";
  }

  lemma Joined415486()
    ensures "2015-12-23T14:02:22" + "." + "415486" == "2015-12-23T14:02:22.415486"
  {
  }

  lemma Rendered427444()
    ensures Rendered(427444) == "2015-12-23T14:02:22.427444"
  {
    Digits427444();
    RenderedIs(427444, "427444");
    Joined427444();
  }

  lemma Digits427444()
    ensures Timestamp.Pad(427444, 6) == "427444"
  {
    assert Timestamp.Pad(4, 1) == "4";
    assert Timestamp.Pad(42, 2) == "42";
    assert Timestamp.Pad(427, 3) == "427";
    assert Timestamp.Pad(4274, 4) == "4274";
    assert Timestamp.Pad(42744, 5) == "42744";
  }

  lemma Joined427444()
    ensures "2015-12-23T14:02:22" + "." + "427444" == "2015-12-23T14:02:22.427444"
  {
  }

}

/** The five-event batch of the parser's notification test, stated as
    lemmas about the model: the batch reads, folds into three records and
    nests the `db` span under the POST request. */
module NotificationExamples {
  import opened Wrappers
  import Text
  import opened OrderedDict
  import opened Spans
  import opened Notifications
  import Timestamp
  import TreeBuilder
  import opened NotificationStamps

  const BaseId := "7253ca8c-33b3-4f84-b4f1-f5a4311ddfa4"
  const PostId := "06320327-2c2c-45ae-923a-515de890276a"
  const GetId := "016c97fd-87f3-40b2-9b55-e431156b694b"
  const DbId := "1baf1d24-9ca9-4f4c-bd3f-01b7e0c0735a"

  /** The trace ids and the base id are four different strings. */
  lemma IdsDiffer()
    ensures BaseId != PostId && BaseId != GetId && BaseId != DbId
    ensures PostId != GetId && PostId != DbId && GetId != DbId
  {
    assert BaseId[0] != PostId[0] && BaseId[0] != GetId[0] && BaseId[0] != DbId[0];
    assert PostId[1] != GetId[1] && PostId[0] != DbId[0] && GetId[0] != DbId[0];
  }

  function Event1(stamp: string): Event {
    [
      Trait("base_id", BaseId),
      Trait("host", "ubuntu"),
      Trait("method", "POST"),
      Trait("name", "wsgi-start"),
      Trait("parent_id", BaseId),
      Trait("project", "keystone"),
      Trait("service", "main"),
      Trait("timestamp", stamp),
      Trait("trace_id", PostId)]
  }
  function Event2(stamp: string): Event {
    [
      Trait("base_id", BaseId),
      Trait("host", "ubuntu"),
      Trait("name", "wsgi-stop"),
      Trait("parent_id", BaseId),
      Trait("project", "keystone"),
      Trait("service", "main"),
      Trait("timestamp", stamp),
      Trait("trace_id", GetId)]
  }
  function Event3(stamp: string): Event {
    [
      Trait("base_id", BaseId),
      Trait("db.params", "[]"),
      Trait("db.statement", "SELECT 1"),
      Trait("host", "ubuntu"),
      Trait("name", "db-start"),
      Trait("parent_id", PostId),
      Trait("project", "keystone"),
      Trait("service", "main"),
      Trait("timestamp", stamp),
      Trait("trace_id", DbId)]
  }
  function Event4(stamp: string): Event {
    [
      Trait("base_id", BaseId),
      Trait("host", "ubuntu"),
      Trait("name", "db-stop"),
      Trait("parent_id", PostId),
      Trait("project", "keystone"),
      Trait("service", "main"),
      Trait("timestamp", stamp),
      Trait("trace_id", DbId)]
  }
  function Event5(stamp: string): Event {
    [
      Trait("base_id", BaseId),
      Trait("host", "ubuntu"),
      Trait("method", "GET"),
      Trait("name", "wsgi-start"),
      Trait("parent_id", BaseId),
      Trait("project", "keystone"),
      Trait("service", "main"),
      Trait("timestamp", stamp),
      Trait("trace_id", GetId)]
  }

  const E1 := Event1(Rendered(338776))
  const E2 := Event2(Rendered(380405))
  const E3 := Event3(Rendered(395365))
  const E4 := Event4(Rendered(415486))
  const E5 := Event5(Rendered(427444))

  /** What each event reads to, for any timestamp text and instant. */
  function Parsed1(text: string, stamp: int): Parsed {
    Parsed(PostId, BaseId, "wsgi-start", "keystone", "main", "ubuntu", stamp, Event1(text))
  }
  function Parsed2(text: string, stamp: int): Parsed {
    Parsed(GetId, BaseId, "wsgi-stop", "keystone", "main", "ubuntu", stamp, Event2(text))
  }
  function Parsed3(text: string, stamp: int): Parsed {
    Parsed(DbId, PostId, "db-start", "keystone", "main", "ubuntu", stamp, Event3(text))
  }
  function Parsed4(text: string, stamp: int): Parsed {
    Parsed(DbId, PostId, "db-stop", "keystone", "main", "ubuntu", stamp, Event4(text))
  }
  function Parsed5(text: string, stamp: int): Parsed {
    Parsed(GetId, BaseId, "wsgi-start", "keystone", "main", "ubuntu", stamp, Event5(text))
  }

  const P1 := Parsed1(Rendered(338776), Second + 338776)
  const P2 := Parsed2(Rendered(380405), Second + 380405)
  const P3 := Parsed3(Rendered(395365), Second + 395365)
  const P4 := Parsed4(Rendered(415486), Second + 415486)
  const P5 := Parsed5(Rendered(427444), Second + 427444)

  lemma FieldsE1(stamp: string)
    ensures FindField(Event1(stamp), "trace_id") == Ok(PostId)
    ensures FindField(Event1(stamp), "parent_id") == Ok(BaseId)
    ensures FindField(Event1(stamp), "name") == Ok("wsgi-start")
    ensures FindField(Event1(stamp), "project") == Ok("keystone")
    ensures FindField(Event1(stamp), "service") == Ok("main")
    ensures FindField(Event1(stamp), "host") == Ok("ubuntu")
    ensures FindField(Event1(stamp), "timestamp") == Ok(stamp)
  {
    IdFieldsE1(stamp);
    InfoFieldsE1(stamp);
  }

  /** The ids and the name of event 1. */
  lemma IdFieldsE1(stamp: string)
    ensures FindField(Event1(stamp), "trace_id") == Ok(PostId)
    ensures FindField(Event1(stamp), "parent_id") == Ok(BaseId)
    ensures FindField(Event1(stamp), "name") == Ok("wsgi-start")
  {
    FindFieldAt(Event1(stamp), "trace_id", 8);
    FindFieldAt(Event1(stamp), "parent_id", 4);
    FindFieldAt(Event1(stamp), "name", 3);
  }

  /** The project, service, host and timestamp of event 1. */
  lemma InfoFieldsE1(stamp: string)
    ensures FindField(Event1(stamp), "project") == Ok("keystone")
    ensures FindField(Event1(stamp), "service") == Ok("main")
    ensures FindField(Event1(stamp), "host") == Ok("ubuntu")
    ensures FindField(Event1(stamp), "timestamp") == Ok(stamp)
  {
    FindFieldAt(Event1(stamp), "project", 5);
    FindFieldAt(Event1(stamp), "service", 6);
    FindFieldAt(Event1(stamp), "host", 1);
    FindFieldAt(Event1(stamp), "timestamp", 7);
  }

  lemma ReadE1()
    ensures ParseEvent(E1) == Ok(P1)
  {
    FieldsE1(Rendered(338776));
    ParseRendered(338776);
  }

  lemma FieldsE2(stamp: string)
    ensures FindField(Event2(stamp), "trace_id") == Ok(GetId)
    ensures FindField(Event2(stamp), "parent_id") == Ok(BaseId)
    ensures FindField(Event2(stamp), "name") == Ok("wsgi-stop")
    ensures FindField(Event2(stamp), "project") == Ok("keystone")
    ensures FindField(Event2(stamp), "service") == Ok("main")
    ensures FindField(Event2(stamp), "host") == Ok("ubuntu")
    ensures FindField(Event2(stamp), "timestamp") == Ok(stamp)
  {
    IdFieldsE2(stamp);
    InfoFieldsE2(stamp);
  }

  /** The ids and the name of event 2. */
  lemma IdFieldsE2(stamp: string)
    ensures FindField(Event2(stamp), "trace_id") == Ok(GetId)
    ensures FindField(Event2(stamp), "parent_id") == Ok(BaseId)
    ensures FindField(Event2(stamp), "name") == Ok("wsgi-stop")
  {
    FindFieldAt(Event2(stamp), "trace_id", 7);
    FindFieldAt(Event2(stamp), "parent_id", 3);
    FindFieldAt(Event2(stamp), "name", 2);
  }

  /** The project, service, host and timestamp of event 2. */
  lemma InfoFieldsE2(stamp: string)
    ensures FindField(Event2(stamp), "project") == Ok("keystone")
    ensures FindField(Event2(stamp), "service") == Ok("main")
    ensures FindField(Event2(stamp), "host") == Ok("ubuntu")
    ensures FindField(Event2(stamp), "timestamp") == Ok(stamp)
  {
    FindFieldAt(Event2(stamp), "project", 4);
    FindFieldAt(Event2(stamp), "service", 5);
    FindFieldAt(Event2(stamp), "host", 1);
    FindFieldAt(Event2(stamp), "timestamp", 6);
  }

  lemma ReadE2()
    ensures ParseEvent(E2) == Ok(P2)
  {
    FieldsE2(Rendered(380405));
    ParseRendered(380405);
  }

  lemma FieldsE3(stamp: string)
    ensures FindField(Event3(stamp), "trace_id") == Ok(DbId)
    ensures FindField(Event3(stamp), "parent_id") == Ok(PostId)
    ensures FindField(Event3(stamp), "name") == Ok("db-start")
    ensures FindField(Event3(stamp), "project") == Ok("keystone")
    ensures FindField(Event3(stamp), "service") == Ok("main")
    ensures FindField(Event3(stamp), "host") == Ok("ubuntu")
    ensures FindField(Event3(stamp), "timestamp") == Ok(stamp)
  {
    IdFieldsE3(stamp);
    InfoFieldsE3(stamp);
  }

  /** The ids and the name of event 3. */
  lemma IdFieldsE3(stamp: string)
    ensures FindField(Event3(stamp), "trace_id") == Ok(DbId)
    ensures FindField(Event3(stamp), "parent_id") == Ok(PostId)
    ensures FindField(Event3(stamp), "name") == Ok("db-start")
  {
    FindFieldAt(Event3(stamp), "trace_id", 9);
    FindFieldAt(Event3(stamp), "parent_id", 5);
    FindFieldAt(Event3(stamp), "name", 4);
  }

  /** The project, service, host and timestamp of event 3. */
  lemma InfoFieldsE3(stamp: string)
    ensures FindField(Event3(stamp), "project") == Ok("keystone")
    ensures FindField(Event3(stamp), "service") == Ok("main")
    ensures FindField(Event3(stamp), "host") == Ok("ubuntu")
    ensures FindField(Event3(stamp), "timestamp") == Ok(stamp)
  {
    FindFieldAt(Event3(stamp), "project", 6);
    FindFieldAt(Event3(stamp), "service", 7);
    FindFieldAt(Event3(stamp), "host", 3);
    FindFieldAt(Event3(stamp), "timestamp", 8);
  }

  lemma ReadE3()
    ensures ParseEvent(E3) == Ok(P3)
  {
    FieldsE3(Rendered(395365));
    ParseRendered(395365);
  }

  lemma FieldsE4(stamp: string)
    ensures FindField(Event4(stamp), "trace_id") == Ok(DbId)
    ensures FindField(Event4(stamp), "parent_id") == Ok(PostId)
    ensures FindField(Event4(stamp), "name") == Ok("db-stop")
    ensures FindField(Event4(stamp), "project") == Ok("keystone")
    ensures FindField(Event4(stamp), "service") == Ok("main")
    ensures FindField(Event4(stamp), "host") == Ok("ubuntu")
    ensures FindField(Event4(stamp), "timestamp") == Ok(stamp)
  {
    IdFieldsE4(stamp);
    InfoFieldsE4(stamp);
  }

  /** The ids and the name of event 4. */
  lemma IdFieldsE4(stamp: string)
    ensures FindField(Event4(stamp), "trace_id") == Ok(DbId)
    ensures FindField(Event4(stamp), "parent_id") == Ok(PostId)
    ensures FindField(Event4(stamp), "name") == Ok("db-stop")
  {
    FindFieldAt(Event4(stamp), "trace_id", 7);
    FindFieldAt(Event4(stamp), "parent_id", 3);
    FindFieldAt(Event4(stamp), "name", 2);
  }

  /** The project, service, host and timestamp of event 4. */
  lemma InfoFieldsE4(stamp: string)
    ensures FindField(Event4(stamp), "project") == Ok("keystone")
    ensures FindField(Event4(stamp), "service") == Ok("main")
    ensures FindField(Event4(stamp), "host") == Ok("ubuntu")
    ensures FindField(Event4(stamp), "timestamp") == Ok(stamp)
  {
    FindFieldAt(Event4(stamp), "project", 4);
    FindFieldAt(Event4(stamp), "service", 5);
    FindFieldAt(Event4(stamp), "host", 1);
    FindFieldAt(Event4(stamp), "timestamp", 6);
  }

  lemma ReadE4()
    ensures ParseEvent(E4) == Ok(P4)
  {
    FieldsE4(Rendered(415486));
    ParseRendered(415486);
  }

  lemma FieldsE5(stamp: string)
    ensures FindField(Event5(stamp), "trace_id") == Ok(GetId)
    ensures FindField(Event5(stamp), "parent_id") == Ok(BaseId)
    ensures FindField(Event5(stamp), "name") == Ok("wsgi-start")
    ensures FindField(Event5(stamp), "project") == Ok("keystone")
    ensures FindField(Event5(stamp), "service") == Ok("main")
    ensures FindField(Event5(stamp), "host") == Ok("ubuntu")
    ensures FindField(Event5(stamp), "timestamp") == Ok(stamp)
  {
    IdFieldsE5(stamp);
    InfoFieldsE5(stamp);
  }

  /** The ids and the name of event 5. */
  lemma IdFieldsE5(stamp: string)
    ensures FindField(Event5(stamp), "trace_id") == Ok(GetId)
    ensures FindField(Event5(stamp), "parent_id") == Ok(BaseId)
    ensures FindField(Event5(stamp), "name") == Ok("wsgi-start")
  {
    FindFieldAt(Event5(stamp), "trace_id", 8);
    FindFieldAt(Event5(stamp), "parent_id", 4);
    FindFieldAt(Event5(stamp), "name", 3);
  }

  /** The project, service, host and timestamp of event 5. */
  lemma InfoFieldsE5(stamp: string)
    ensures FindField(Event5(stamp), "project") == Ok("keystone")
    ensures FindField(Event5(stamp), "service") == Ok("main")
    ensures FindField(Event5(stamp), "host") == Ok("ubuntu")
    ensures FindField(Event5(stamp), "timestamp") == Ok(stamp)
  {
    FindFieldAt(Event5(stamp), "project", 5);
    FindFieldAt(Event5(stamp), "service", 6);
    FindFieldAt(Event5(stamp), "host", 1);
    FindFieldAt(Event5(stamp), "timestamp", 7);
  }

  lemma ReadE5()
    ensures ParseEvent(E5) == Ok(P5)
  {
    FieldsE5(Rendered(427444));
    ParseRendered(427444);
  }

  const Events: seq<Event> := [E1, E2, E3, E4, E5]
  const Ps: seq<Parsed> := [P1, P2, P3, P4, P5]

  lemma ReadEvents()
    ensures ParseAll(Events) == Ok(Ps)
  {
    ReadE1();
    ReadE2();
    ReadE3();
    ReadE4();
    ReadE5();
    ReadFive(E1, E2, E3, E4, E5, P1, P2, P3, P4, P5);
  }

  lemma ReadFive(e1: Event, e2: Event, e3: Event, e4: Event, e5: Event,
                 p1: Parsed, p2: Parsed, p3: Parsed, p4: Parsed, p5: Parsed)
    requires ParseEvent(e1) == Ok(p1) && ParseEvent(e2) == Ok(p2) && ParseEvent(e3) == Ok(p3)
    requires ParseEvent(e4) == Ok(p4) && ParseEvent(e5) == Ok(p5)
    ensures ParseAll([e1, e2, e3, e4, e5]) == Ok([p1, p2, p3, p4, p5])
  {
    var es := [e1, e2, e3, e4, e5];
    var ps := [p1, p2, p3, p4, p5];
    assert es[0] == e1 && es[1] == e2 && es[2] == e3 && es[3] == e4 && es[4] == e5;
    assert ps[0] == p1 && ps[1] == p2 && ps[2] == p3 && ps[3] == p4 && ps[4] == p5;
    ReadSeq(es, ps);
  }

  /** A batch of five events each of which reads reads to the five records. */
  lemma ReadSeq(es: seq<Event>, ps: seq<Parsed>)
    requires |es| == 5 && |ps| == 5
    requires ParseEvent(es[0]) == Ok(ps[0]) && ParseEvent(es[1]) == Ok(ps[1])
    requires ParseEvent(es[2]) == Ok(ps[2]) && ParseEvent(es[3]) == Ok(ps[3])
    requires ParseEvent(es[4]) == Ok(ps[4])
    ensures ParseAll(es) == Ok(ps)
  {
    forall i | 0 <= i < |es| ensures ParseEvent(es[i]) == Ok(ps[i]) {
      assert i == 0 || i == 1 || i == 2 || i == 3 || i == 4;
    }
    ParseAllOk(es, ps);
  }

  // -------------------------------------------------------------------
  // Folding the five records

  /** Copying the traits of an event whose only non-reserved trait is `t`. */
  lemma MergeOne(meta: Dict<string>, a: Event, t: Trait, b: Event)
    requires forall i :: 0 <= i < |a| ==> a[i].name in Reserved
    requires forall i :: 0 <= i < |b| ==> b[i].name in Reserved
    requires t.name !in Reserved
    ensures MergeMeta(meta, a + [t] + b) == Set(meta, MetaKey(t.name), t.value)
  {
    MergeMetaAppend(meta, a + [t], b);
    MergeMetaAppend(meta, a, [t]);
    MergeMetaReserved(meta, a);
    MergeMetaReserved(MergeMeta(meta, a + [t]), b);
    assert [t][..0] == [];
  }

  // The `meta.*` keys of the example traits, each kept apart from the
  // larger proofs so that the literal concatenation is evaluated alone.

  lemma MethodKey()
    ensures MetaKey("method") == "meta.method"
  {
  }

  lemma HostKey()
    ensures MetaKey("host") == "meta.host"
  {
  }

  lemma DbKeys()
    ensures MetaKey("db.params") == "meta.db.params"
    ensures MetaKey("db.statement") == "meta.db.statement"
  {
    DbParamsKey();
    DbStatementKey();
  }

  lemma DbParamsKey()
    ensures MetaKey("db.params") == "meta.db.params"
  {
  }

  lemma DbStatementKey()
    ensures MetaKey("db.statement") == "meta.db.statement"
  {
  }

  /** Copying the traits of an event whose only non-reserved traits are
      `t1` and `t2`, adjacent and in that order. */
  lemma MergeTwo(meta: Dict<string>, a: Event, t1: Trait, t2: Trait, b: Event)
    requires forall i :: 0 <= i < |a| ==> a[i].name in Reserved
    requires forall i :: 0 <= i < |b| ==> b[i].name in Reserved
    requires t1.name !in Reserved && t2.name !in Reserved
    ensures MergeMeta(meta, a + [t1, t2] + b)
         == Set(Set(meta, MetaKey(t1.name), t1.value), MetaKey(t2.name), t2.value)
  {
    assert a + [t1, t2] + b == (a + [t1] + []) + ([] + [t2] + b);
    MergeMetaAppend(meta, a + [t1] + [], [] + [t2] + b);
    MergeOne(meta, a, t1, []);
    MergeOne(MergeMeta(meta, a + [t1] + []), [], t2, b);
  }

  lemma MetaE1(meta: Dict<string>, stamp: string)
    ensures MergeMeta(meta, Event1(stamp)) == Set(meta, "meta.method", "POST")
  {
    var a := [Trait("base_id", BaseId), Trait("host", "ubuntu")];
    var b := [Trait("name", "wsgi-start"), Trait("parent_id", BaseId), Trait("project", "keystone"),
              Trait("service", "main"), Trait("timestamp", stamp), Trait("trace_id", PostId)];
    assert Event1(stamp) == a + [Trait("method", "POST")] + b;
    MergeOne(meta, a, Trait("method", "POST"), b);
    MethodKey();
  }

  lemma MetaE2(meta: Dict<string>, stamp: string)
    ensures MergeMeta(meta, Event2(stamp)) == meta
  {
    MergeMetaReserved(meta, Event2(stamp));
  }

  lemma MetaE3(meta: Dict<string>, stamp: string)
    ensures MergeMeta(meta, Event3(stamp))
         == Set(Set(meta, "meta.db.params", "[]"), "meta.db.statement", "SELECT 1")
  {
    var a := [Trait("base_id", BaseId)];
    var t1 := Trait("db.params", "[]");
    var t2 := Trait("db.statement", "SELECT 1");
    var b := [Trait("host", "ubuntu"), Trait("name", "db-start"), Trait("parent_id", PostId),
              Trait("project", "keystone"), Trait("service", "main"), Trait("timestamp", stamp),
              Trait("trace_id", DbId)];
    assert Event3(stamp) == a + [t1, t2] + b;
    MergeTwo(meta, a, t1, t2, b);
    DbKeys();
  }

  lemma MetaE4(meta: Dict<string>, stamp: string)
    ensures MergeMeta(meta, Event4(stamp)) == meta
  {
    MergeMetaReserved(meta, Event4(stamp));
  }

  lemma MetaE5(meta: Dict<string>, stamp: string)
    ensures MergeMeta(meta, Event5(stamp)) == Set(meta, "meta.method", "GET")
  {
    var a := [Trait("base_id", BaseId), Trait("host", "ubuntu")];
    var b := [Trait("name", "wsgi-start"), Trait("parent_id", BaseId), Trait("project", "keystone"),
              Trait("service", "main"), Trait("timestamp", stamp), Trait("trace_id", GetId)];
    assert Event5(stamp) == a + [Trait("method", "GET")] + b;
    MergeOne(meta, a, Trait("method", "GET"), b);
    MethodKey();
  }

  /** The `meta` every record starts with. */
  const Host: Dict<string> := [("meta.host", "ubuntu")]

  lemma HostFirst(p: Parsed)
    requires p.host == "ubuntu"
    ensures Fresh(p).meta == Host
  {
    HostKey();
  }

  lemma HostThen(k: string, v: string)
    requires k != "meta.host"
    ensures Set(Host, k, v) == Host + [(k, v)]
  {
    SetNew(Host, k, v);
  }

  lemma HostThenThen(k1: string, v1: string, k2: string, v2: string)
    requires k1 != "meta.host" && k2 != "meta.host" && k2 != k1
    ensures Set(Host + [(k1, v1)], k2, v2) == Host + [(k1, v1), (k2, v2)]
  {
    var d := Host + [(k1, v1)];
    assert d[0].0 != k2 && d[1].0 != k2;
    SetNew(d, k2, v2);
  }

  lemma NameE1()
    ensures Text.BeforeFirst("wsgi-start", '-') == "wsgi" && !Text.EndsWith("wsgi-start", "stop")
  {
    Text.BeforeFirstAt("wsgi-start", '-', 4);
    assert "wsgi-start"[6..][0] != "stop"[0];
  }

  lemma NameE2()
    ensures Text.BeforeFirst("wsgi-stop", '-') == "wsgi" && Text.EndsWith("wsgi-stop", "stop")
  {
    Text.BeforeFirstAt("wsgi-stop", '-', 4);
    assert "wsgi-stop"[5..] == "stop";
  }

  lemma NameE3()
    ensures Text.BeforeFirst("db-start", '-') == "db" && !Text.EndsWith("db-start", "stop")
  {
    Text.BeforeFirstAt("db-start", '-', 2);
    assert "db-start"[4..][0] != "stop"[0];
  }

  lemma NameE4()
    ensures Text.EndsWith("db-stop", "stop")
  {
    assert "db-stop"[3..] == "stop";
  }

  /** The three records the batch folds into, for any instants. */
  function PostRecord(started: Option<int>, finished: Option<int>): Pending {
    Pending(PostId, BaseId, "wsgi", "keystone", "main", "ubuntu", Host + [("meta.method", "POST")], started, finished)
  }

  function GetRecord(meta: Dict<string>, started: Option<int>, finished: Option<int>): Pending {
    Pending(GetId, BaseId, "wsgi", "keystone", "main", "ubuntu", meta, started, finished)
  }

  function DbRecord(started: Option<int>, finished: Option<int>): Pending {
    Pending(DbId, PostId, "db", "keystone", "main", "ubuntu",
            Host + [("meta.db.params", "[]"), ("meta.db.statement", "SELECT 1")], started, finished)
  }

  /** The fold's state after each event of the batch. */
  function Stage1(s1: int): Acc {
    Acc([PostId], map[PostId := PostRecord(Some(s1), None)], Some(s1), Some(s1))
  }

  function Stage2(s1: int, s2: int): Acc {
    Acc([PostId, GetId],
        map[PostId := PostRecord(Some(s1), None), GetId := GetRecord(Host, None, Some(s2))],
        Some(s1), Some(s2))
  }

  function Stage3(s1: int, s2: int, s3: int): Acc {
    Acc([PostId, GetId, DbId],
        map[PostId := PostRecord(Some(s1), None), GetId := GetRecord(Host, None, Some(s2)),
            DbId := DbRecord(Some(s3), None)],
        Some(s1), Some(s3))
  }

  function Stage4(s1: int, s2: int, s3: int, s4: int): Acc {
    Acc([PostId, GetId, DbId],
        map[PostId := PostRecord(Some(s1), None), GetId := GetRecord(Host, None, Some(s2)),
            DbId := DbRecord(Some(s3), Some(s4))],
        Some(s1), Some(s4))
  }

  function Stage5(s1: int, s2: int, s3: int, s4: int, s5: int): Acc {
    Acc([PostId, GetId, DbId],
        map[PostId := PostRecord(Some(s1), None),
            GetId := GetRecord(Host + [("meta.method", "GET")], Some(s5), Some(s2)),
            DbId := DbRecord(Some(s3), Some(s4))],
        Some(s1), Some(s5))
  }

  /** One fold step for an event later than every earlier one, with the
      record it lands on (`base`), the `meta` it leaves and its kind given. */
  lemma AbsorbLater(acc: Acc, p: Parsed, base: Pending, meta: Dict<string>, stop: bool)
    requires acc.earliest.Some? && acc.latest.Some? && acc.earliest.value <= acc.latest.value < p.stamp
    requires base == if p.traceId in acc.records then acc.records[p.traceId] else Fresh(p)
    requires MergeMeta(base.meta, p.traits) == meta
    requires Text.EndsWith(p.name, "stop") == stop
    ensures Absorb(acc, p)
         == Acc(if p.traceId in acc.records then acc.order else acc.order + [p.traceId],
                acc.records[p.traceId := if stop then base.(meta := meta, finished := Some(p.stamp))
                                         else base.(meta := meta, started := Some(p.stamp))],
                acc.earliest, Some(p.stamp))
  {
  }

  /** The POST request starts a record and the batch's time range. */
  lemma Fold1(t: string, s: int)
    ensures Absorb(Acc([], map[], None, None), Parsed1(t, s)) == Stage1(s)
  {
    NameE1();
    HostFirst(Parsed1(t, s));
    MetaE1(Host, t);
    HostThen("meta.method", "POST");
  }

  /** The GET request's stop arrives first: a new record with only
      `finished`. */
  lemma Fold2(t: string, s1: int, s: int)
    requires s1 < s
    ensures Absorb(Stage1(s1), Parsed2(t, s)) == Stage2(s1, s)
  {
    NameE2();
    IdsDiffer();
    var p := Parsed2(t, s);
    HostFirst(p);
    MetaE2(Host, t);
    AbsorbLater(Stage1(s1), p, Fresh(p), Host, true);
  }

  /** The database call starts a third record. */
  lemma Fold3(t: string, s1: int, s2: int, s: int)
    requires s1 < s2 < s
    ensures Absorb(Stage2(s1, s2), Parsed3(t, s)) == Stage3(s1, s2, s)
  {
    NameE3();
    IdsDiffer();
    var p := Parsed3(t, s);
    HostFirst(p);
    MetaE3(Host, t);
    HostThen("meta.db.params", "[]");
    HostThenThen("meta.db.params", "[]", "meta.db.statement", "SELECT 1");
    AbsorbLater(Stage2(s1, s2), p, Fresh(p), DbRecord(None, None).meta, false);
  }

  /** Its stop completes the third record and adds no `meta`. */
  lemma Fold4(t: string, s1: int, s2: int, s3: int, s: int)
    requires s1 < s2 < s3 < s
    ensures Absorb(Stage3(s1, s2, s3), Parsed4(t, s)) == Stage4(s1, s2, s3, s)
  {
    NameE4();
    var p := Parsed4(t, s);
    MetaE4(DbRecord(Some(s3), None).meta, t);
    AbsorbLater(Stage3(s1, s2, s3), p, DbRecord(Some(s3), None), DbRecord(Some(s3), None).meta, true);
  }

  /** The GET request's start arrives last, after its stop. */
  lemma Fold5(t: string, s1: int, s2: int, s3: int, s4: int, s: int)
    requires s1 < s2 < s3 < s4 < s
    ensures Absorb(Stage4(s1, s2, s3, s4), Parsed5(t, s)) == Stage5(s1, s2, s3, s4, s)
  {
    var p := Parsed5(t, s);
    var meta := Host + [("meta.method", "GET")];
    Fold5Meta(t);
    NameE1();
    AbsorbLater(Stage4(s1, s2, s3, s4), p, GetRecord(Host, None, Some(s2)), meta, false);
    Stage5Records(s1, s2, s3, s4, s);
  }

  /** The `meta` the GET request's start leaves on its record. */
  lemma Fold5Meta(t: string)
    ensures MergeMeta(Host, Parsed5(t, 0).traits) == Host + [("meta.method", "GET")]
  {
    MetaE5(Host, t);
    HostThen("meta.method", "GET");
  }

  /** Updating the GET record of the fourth stage gives the fifth stage's
      records. */
  lemma Stage5Records(s1: int, s2: int, s3: int, s4: int, s: int)
    ensures GetId in Stage4(s1, s2, s3, s4).records
    ensures Stage4(s1, s2, s3, s4).records[GetId] == GetRecord(Host, None, Some(s2))
    ensures Stage4(s1, s2, s3, s4).records[GetId := GetRecord(Host + [("meta.method", "GET")], Some(s), Some(s2))]
         == Stage5(s1, s2, s3, s4, s).records
  {
    IdsDiffer();
  }
}
