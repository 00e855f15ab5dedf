/** `parse_notifications`: turns a flat list of profiler events into one
    span record per trace id, then into a forest under a synthetic `total`
    root, with every instant rebased to whole milliseconds after the
    earliest event.

    The Python loop reads an event's fields, parses its timestamp and folds
    it into the records before moving on; the first failure raises and
    discards everything. Here the reading (`ParseEvent`, `ParseAll`) and the
    folding (`Absorb`, `Aggregate`) are separate stages; the result, or the
    first error, is the same. */
module Notifications {
  import opened Wrappers
  import opened Text
  import opened OrderedDict
  import opened Spans
  import Timestamp
  import TreeBuilder

  /** One `{name, value}` entry of an event's `traits` list. */
  datatype Trait = Trait(name: string, value: string)

  /** An event is its list of traits; names may repeat. */
  type Event = seq<Trait>

  datatype Error = MissingField(field: string) | BadTimestamp(text: string)

  /** Trait names that never become `meta.*` entries. */
  const Reserved: seq<string> :=
    ["base_id", "trace_id", "parent_id", "name", "project", "service", "host", "timestamp"]

  // ---------------------------------------------------------------------
  // Reading one event

  /** `find_field`: the value of the first trait named `name`; the Python
      indexing `[...][0]` fails when there is none. */
  function FindField(traits: Event, name: string): (r: Result<string, Error>)
    ensures r.Err? ==> r.error == MissingField(name)
  {
    if |traits| == 0 then Err(MissingField(name))
    else if traits[0].name == name then Ok(traits[0].value)
    else FindField(traits[1..], name)
  }

  /** `find_field` succeeds exactly when some trait has the name, and then
      returns the value of the first such trait. */
  lemma {:induction false} FindFieldFirst(traits: Event, name: string)
    ensures FindField(traits, name).Ok? <==> exists i :: 0 <= i < |traits| && traits[i].name == name
    ensures FindField(traits, name).Ok? ==>
              exists i :: 0 <= i < |traits| && traits[i] == Trait(name, FindField(traits, name).value)
                          && forall j :: 0 <= j < i ==> traits[j].name != name
  {
    if |traits| > 0 && traits[0].name != name {
      var r := FindField(traits[1..], name);
      FindFieldFirst(traits[1..], name);
      if r.Ok? {
        var i :| 0 <= i < |traits[1..]| && traits[1..][i] == Trait(name, r.value)
                 && forall j :: 0 <= j < i ==> traits[1..][j].name != name;
        assert traits[i + 1] == Trait(name, r.value);
        assert forall j :: 0 < j < i + 1 ==> traits[j].name == traits[1..][j - 1].name;
      }
      if exists i :: 0 <= i < |traits| && traits[i].name == name {
        var i :| 0 <= i < |traits| && traits[i].name == name;
        assert traits[1..][i - 1].name == name;
      }
    } else if |traits| > 0 {
      assert traits[0] == Trait(name, traits[0].value);
    }
  }

  /** Conversely, the first trait with the name supplies the value. */
  lemma {:induction false} FindFieldAt(traits: Event, name: string, i: nat)
    requires i < |traits| && traits[i].name == name
    requires forall j :: 0 <= j < i ==> traits[j].name != name
    ensures FindField(traits, name) == Ok(traits[i].value)
  {
    if i > 0 {
      assert traits[0].name != name;
      FindFieldAt(traits[1..], name, i - 1);
    }
  }

  /** The fields the parser reads from one event, with the timestamp as
      microseconds since 0001-01-01. */
  datatype Parsed = Parsed(traceId: string, parentId: string, name: string, project: string,
                           service: string, host: string, stamp: int, traits: Event)

  /** Reads `trace_id`, `parent_id`, `name`, `project`, `service`, `host`
      and `timestamp`, in that order, failing on the first one missing, then
      parses the timestamp. */
  function ParseEvent(ev: Event): (r: Result<Parsed, Error>)
    ensures r.Ok? <==> && FindField(ev, "trace_id").Ok? && FindField(ev, "parent_id").Ok?
                       && FindField(ev, "name").Ok? && FindField(ev, "project").Ok?
                       && FindField(ev, "service").Ok? && FindField(ev, "host").Ok?
                       && FindField(ev, "timestamp").Ok?
                       && Timestamp.Parse(FindField(ev, "timestamp").value).Some?
    ensures r.Ok? ==> && r.value.traceId == FindField(ev, "trace_id").value
                      && r.value.parentId == FindField(ev, "parent_id").value
                      && r.value.name == FindField(ev, "name").value
                      && r.value.project == FindField(ev, "project").value
                      && r.value.service == FindField(ev, "service").value
                      && r.value.host == FindField(ev, "host").value
                      && Timestamp.Parse(FindField(ev, "timestamp").value) == Some(r.value.stamp)
                      && r.value.traits == ev
                      && r.value.stamp >= 0
    ensures r.Err? && FindField(ev, "trace_id").Err? ==> r.error == MissingField("trace_id")
    ensures r.Err? && r.error.BadTimestamp? ==> Ok(r.error.text) == FindField(ev, "timestamp")
    // The first missing field, in reading order, is the error, and the
    // timestamp is only parsed once all seven are present.
    ensures FindField(ev, "trace_id").Err? ==> r == Err(MissingField("trace_id"))
    ensures FindField(ev, "trace_id").Ok? && FindField(ev, "parent_id").Err?
            ==> r == Err(MissingField("parent_id"))
    ensures FindField(ev, "trace_id").Ok? && FindField(ev, "parent_id").Ok?
            && FindField(ev, "name").Err?
            ==> r == Err(MissingField("name"))
    ensures FindField(ev, "trace_id").Ok? && FindField(ev, "parent_id").Ok?
            && FindField(ev, "name").Ok? && FindField(ev, "project").Err?
            ==> r == Err(MissingField("project"))
    ensures FindField(ev, "trace_id").Ok? && FindField(ev, "parent_id").Ok?
            && FindField(ev, "name").Ok? && FindField(ev, "project").Ok?
            && FindField(ev, "service").Err?
            ==> r == Err(MissingField("service"))
    ensures FindField(ev, "trace_id").Ok? && FindField(ev, "parent_id").Ok?
            && FindField(ev, "name").Ok? && FindField(ev, "project").Ok?
            && FindField(ev, "service").Ok? && FindField(ev, "host").Err?
            ==> r == Err(MissingField("host"))
    ensures FindField(ev, "trace_id").Ok? && FindField(ev, "parent_id").Ok?
            && FindField(ev, "name").Ok? && FindField(ev, "project").Ok?
            && FindField(ev, "service").Ok? && FindField(ev, "host").Ok?
            && FindField(ev, "timestamp").Err?
            ==> r == Err(MissingField("timestamp"))
    ensures FindField(ev, "trace_id").Ok? && FindField(ev, "parent_id").Ok?
            && FindField(ev, "name").Ok? && FindField(ev, "project").Ok?
            && FindField(ev, "service").Ok? && FindField(ev, "host").Ok?
            && FindField(ev, "timestamp").Ok? && Timestamp.Parse(FindField(ev, "timestamp").value).None?
            ==> r == Err(BadTimestamp(FindField(ev, "timestamp").value))
  {
    var traceId :- FindField(ev, "trace_id");
    var parentId :- FindField(ev, "parent_id");
    var name :- FindField(ev, "name");
    var project :- FindField(ev, "project");
    var service :- FindField(ev, "service");
    var host :- FindField(ev, "host");
    var text :- FindField(ev, "timestamp");
    match Timestamp.Parse(text)
    case Some(stamp) => Ok(Parsed(traceId, parentId, name, project, service, host, stamp, ev))
    case None => Err(BadTimestamp(text))
  }

  /** Reads every event; the first event that fails decides the error. */
  function ParseAll(events: seq<Event>): (r: Result<seq<Parsed>, Error>)
    ensures r.Ok? ==> |r.value| == |events| && forall i :: 0 <= i < |events| ==> ParseEvent(events[i]) == Ok(r.value[i])
    ensures r.Err? ==> exists i :: 0 <= i < |events| && ParseEvent(events[i]) == Err(r.error)
                                   && forall j :: 0 <= j < i ==> ParseEvent(events[j]).Ok?
  {
    if |events| == 0 then Ok([])
    else
      var first :- ParseEvent(events[0]);
      var rest := ParseAll(events[1..]);
      match rest
      case Err(e) =>
        FirstFailureShift(events, e);
        Err(e)
      case Ok(tail) =>
        assert forall i :: 0 < i < |events| ==> events[i] == events[1..][i - 1];
        Ok([first] + tail)
  }

  /** Conversely, when every event reads, the batch reads to exactly those
      records. */
  lemma ParseAllOk(events: seq<Event>, ps: seq<Parsed>)
    requires |ps| == |events| && forall i :: 0 <= i < |events| ==> ParseEvent(events[i]) == Ok(ps[i])
    ensures ParseAll(events) == Ok(ps)
  {
    var r := ParseAll(events);
    assert r.value == ps;
  }

  lemma FirstFailureShift(events: seq<Event>, e: Error)
    requires |events| > 0 && ParseEvent(events[0]).Ok?
    requires exists i :: 0 <= i < |events[1..]| && ParseEvent(events[1..][i]) == Err(e)
                         && forall j :: 0 <= j < i ==> ParseEvent(events[1..][j]).Ok?
    ensures exists i :: 0 <= i < |events| && ParseEvent(events[i]) == Err(e)
                        && forall j :: 0 <= j < i ==> ParseEvent(events[j]).Ok?
  {
    var rest := events[1..];
    var i :| 0 <= i < |rest| && ParseEvent(rest[i]) == Err(e)
             && forall j :: 0 <= j < i ==> ParseEvent(rest[j]).Ok?;
    assert events[i + 1] == rest[i];
    forall j | 0 <= j < i + 1 ensures ParseEvent(events[j]).Ok? {
      if j > 0 { assert events[j] == rest[j - 1]; }
    }
    assert ParseEvent(events[i + 1]) == Err(e);
  }

  // ---------------------------------------------------------------------
  // Folding events into records

  /** A record while events are still arriving: `started` and `finished`
      are absent until an event of that kind is seen. */
  datatype Pending = Pending(traceId: string, parentId: string, name: string, project: string,
                             service: string, host: string, meta: Dict<string>,
                             started: Option<int>, finished: Option<int>)

  /** The records in insertion order (`order` lists the keys), and the
      running earliest and latest timestamps of the batch. */
  datatype Acc = Acc(order: seq<string>, records: map<string, Pending>,
                     earliest: Option<int>, latest: Option<int>)

  /** The `meta.*` key a trait is stored under. */
  function MetaKey(name: string): string {
    "meta." + name
  }

  /** The record created for the first event of a trace id. */
  function Fresh(p: Parsed): Pending {
    Pending(p.traceId, p.parentId, BeforeFirst(p.name, '-'), p.project, p.service, p.host,
            [(MetaKey("host"), p.host)], None, None)
  }

  /** Copies every non-reserved trait, in order, into `meta`. */
  function MergeMeta(meta: Dict<string>, traits: Event): Dict<string> {
    if |traits| == 0 then meta
    else
      var m := MergeMeta(meta, traits[..|traits| - 1]);
      var t := traits[|traits| - 1];
      if t.name in Reserved then m else Set(m, MetaKey(t.name), t.value)
  }

  /** The loop body for one event. */
  function Absorb(acc: Acc, p: Parsed): Acc {
    var known := p.traceId in acc.records;
    var rec := if known then acc.records[p.traceId] else Fresh(p);
    var merged := rec.(meta := MergeMeta(rec.meta, p.traits));
    var stamped := if EndsWith(p.name, "stop") then merged.(finished := Some(p.stamp))
                   else merged.(started := Some(p.stamp));
    Acc(if known then acc.order else acc.order + [p.traceId],
        acc.records[p.traceId := stamped],
        if acc.earliest.None? || acc.earliest.value > p.stamp then Some(p.stamp) else acc.earliest,
        if acc.latest.None? || acc.latest.value < p.stamp then Some(p.stamp) else acc.latest)
  }

  /** The loop over all events. */
  function Aggregate(ps: seq<Parsed>): Acc {
    if |ps| == 0 then Acc([], map[], None, None)
    else Absorb(Aggregate(ps[..|ps| - 1]), ps[|ps| - 1])
  }

  lemma AggregateSnoc(ps: seq<Parsed>, p: Parsed)
    ensures Aggregate(ps + [p]) == Absorb(Aggregate(ps), p)
  {
    assert (ps + [p])[..|ps|] == ps;
  }

  /** Copying traits in two batches is copying them all. */
  lemma {:induction false} MergeMetaAppend(meta: Dict<string>, a: Event, b: Event)
    ensures MergeMeta(meta, a + b) == MergeMeta(MergeMeta(meta, a), b)
  {
    if |b| > 0 {
      var b' := b[..|b| - 1];
      MergeMetaAppend(meta, a, b');
      var t := b[|b| - 1];
      assert (a + b)[..|a + b| - 1] == a + b' && (a + b)[|a + b| - 1] == t;
      var m := MergeMeta(meta, a + b');
      assert MergeMeta(meta, a + b) == if t.name in Reserved then m else Set(m, MetaKey(t.name), t.value);
    } else {
      assert a + b == a;
    }
  }

  /** Reserved traits leave `meta` alone. */
  lemma {:induction false} MergeMetaReserved(meta: Dict<string>, traits: Event)
    requires forall i :: 0 <= i < |traits| ==> traits[i].name in Reserved
    ensures MergeMeta(meta, traits) == meta
  {
    if |traits| > 0 {
      MergeMetaReserved(meta, traits[..|traits| - 1]);
    }
  }

  // ---------------------------------------------------------------------
  // What the fold computes, stated per trace id

  function TraceIds(ps: seq<Parsed>): set<string> {
    set i | 0 <= i < |ps| :: ps[i].traceId
  }

  predicate Distinct(s: seq<string>) {
    forall i, j :: 0 <= i < j < |s| ==> s[i] != s[j]
  }

  /** The position of the first event of trace id `t`. */
  function FirstIndex(ps: seq<Parsed>, t: string): (r: nat)
    requires t in TraceIds(ps)
    ensures r < |ps| && ps[r].traceId == t
    ensures forall j :: 0 <= j < r ==> ps[j].traceId != t
  {
    if ps[0].traceId == t then 0
    else
      assert t in TraceIds(ps[1..]) by {
        var i :| 0 <= i < |ps| && ps[i].traceId == t;
        assert ps[1..][i - 1].traceId == t;
      }
      1 + FirstIndex(ps[1..], t)
  }

  /** The timestamp of the last stop event (`stop`) or of the last other
      event (`!stop`) of trace id `t`. */
  function LastStamp(ps: seq<Parsed>, t: string, stop: bool): Option<int> {
    if |ps| == 0 then None
    else
      var p := ps[|ps| - 1];
      if p.traceId == t && EndsWith(p.name, "stop") == stop then Some(p.stamp)
      else LastStamp(ps[..|ps| - 1], t, stop)
  }

  /** The value of the last non-reserved trait of `traits` stored under `key`. */
  function LastTrait(traits: Event, key: string): Option<string> {
    if |traits| == 0 then None
    else
      var tr := traits[|traits| - 1];
      if tr.name !in Reserved && MetaKey(tr.name) == key then Some(tr.value)
      else LastTrait(traits[..|traits| - 1], key)
  }

  /** The value of the last non-reserved trait stored under `key` by any
      event of trace id `t`. */
  function LastMeta(ps: seq<Parsed>, t: string, key: string): Option<string> {
    if |ps| == 0 then None
    else
      var p := ps[|ps| - 1];
      (if p.traceId == t then LastTrait(p.traits, key) else None).OrElse(LastMeta(ps[..|ps| - 1], t, key))
  }

  lemma TraceIdsSnoc(ps: seq<Parsed>)
    requires |ps| > 0
    ensures TraceIds(ps) == TraceIds(ps[..|ps| - 1]) + {ps[|ps| - 1].traceId}
  {
    var prefix := ps[..|ps| - 1];
    assert forall i :: 0 <= i < |prefix| ==> prefix[i] == ps[i];
  }

  /** The fold keeps one record per trace id seen and lists each key once. */
  lemma {:induction false} RecordKeys(ps: seq<Parsed>)
    ensures Aggregate(ps).records.Keys == TraceIds(ps)
    ensures forall t :: t in Aggregate(ps).order <==> t in Aggregate(ps).records
  {
    if |ps| > 0 {
      RecordKeys(ps[..|ps| - 1]);
      TraceIdsSnoc(ps);
    }
  }

  lemma {:induction false} OrderDistinct(ps: seq<Parsed>)
    ensures Distinct(Aggregate(ps).order)
  {
    if |ps| > 0 {
      RecordKeys(ps[..|ps| - 1]);
      OrderDistinct(ps[..|ps| - 1]);
    }
  }

  lemma {:induction false} OrderFirstSeen(ps: seq<Parsed>)
    ensures forall t :: t in Aggregate(ps).order ==> t in TraceIds(ps)
    ensures forall i, j :: 0 <= i < j < |Aggregate(ps).order| ==>
              FirstIndex(ps, Aggregate(ps).order[i]) < FirstIndex(ps, Aggregate(ps).order[j])
  {
    RecordKeys(ps);
    if |ps| > 0 {
      var prefix := ps[..|ps| - 1];
      OrderFirstSeen(prefix);
      RecordKeys(prefix);
      if ps[|ps| - 1].traceId in Aggregate(prefix).records {
        OrderFirstSeenKnown(ps, prefix);
      } else {
        OrderFirstSeenNew(ps, prefix);
      }
    }
  }

  lemma OrderFirstSeenKnown(ps: seq<Parsed>, prefix: seq<Parsed>)
    requires |ps| > 0 && prefix == ps[..|ps| - 1]
    requires forall t :: t in Aggregate(prefix).order ==> t in TraceIds(prefix)
    requires forall i, j :: 0 <= i < j < |Aggregate(prefix).order| ==>
               FirstIndex(prefix, Aggregate(prefix).order[i])
               < FirstIndex(prefix, Aggregate(prefix).order[j])
    requires ps[|ps| - 1].traceId in Aggregate(prefix).records
    requires forall t :: t in Aggregate(ps).order ==> t in TraceIds(ps)
    ensures forall i, j :: 0 <= i < j < |Aggregate(ps).order| ==>
              FirstIndex(ps, Aggregate(ps).order[i]) < FirstIndex(ps, Aggregate(ps).order[j])
  {
    var order := Aggregate(ps).order;
    assert order == Aggregate(ps[..|ps| - 1]).order;
    forall i, j | 0 <= i < j < |order| ensures FirstIndex(ps, order[i]) < FirstIndex(ps, order[j]) {
      FirstIndexPrefix(ps, order[i]);
      FirstIndexPrefix(ps, order[j]);
    }
  }

  lemma OrderFirstSeenNew(ps: seq<Parsed>, prefix: seq<Parsed>)
    requires |ps| > 0 && prefix == ps[..|ps| - 1]
    requires forall t :: t in Aggregate(prefix).order ==> t in TraceIds(prefix)
    requires forall i, j :: 0 <= i < j < |Aggregate(prefix).order| ==>
               FirstIndex(prefix, Aggregate(prefix).order[i])
               < FirstIndex(prefix, Aggregate(prefix).order[j])
    requires ps[|ps| - 1].traceId !in Aggregate(prefix).records
    requires forall t :: t in Aggregate(ps).order ==> t in TraceIds(ps)
    requires Aggregate(prefix).records.Keys == TraceIds(prefix)
    ensures forall i, j :: 0 <= i < j < |Aggregate(ps).order| ==>
              FirstIndex(ps, Aggregate(ps).order[i]) < FirstIndex(ps, Aggregate(ps).order[j])
  {
    var before := Aggregate(ps[..|ps| - 1]).order;
    var order := Aggregate(ps).order;
    assert order == before + [ps[|ps| - 1].traceId];
    forall j | 0 <= j < |ps| - 1 ensures ps[j].traceId != ps[|ps| - 1].traceId {
      assert ps[j] == ps[..|ps| - 1][j];
    }
    FirstIndexUnique(ps, ps[|ps| - 1].traceId, |ps| - 1);
    forall i, j | 0 <= i < j < |order| ensures FirstIndex(ps, order[i]) < FirstIndex(ps, order[j]) {
      assert order[i] == before[i];
      FirstIndexPrefix(ps, order[i]);
      if j < |before| {
        assert order[j] == before[j];
        FirstIndexPrefix(ps, order[j]);
      }
    }
  }

  lemma FirstIndexPrefix(ps: seq<Parsed>, t: string)
    requires |ps| > 0 && t in TraceIds(ps[..|ps| - 1])
    ensures t in TraceIds(ps) && FirstIndex(ps, t) == FirstIndex(ps[..|ps| - 1], t) < |ps| - 1
  {
    var prefix := ps[..|ps| - 1];
    var k := FirstIndex(prefix, t);
    assert ps[k] == prefix[k];
    assert forall j :: 0 <= j < k ==> ps[j] == prefix[j];
    FirstIndexUnique(ps, t, k);
  }

  /** Exactly one record per distinct trace id, listed in the order in
      which the trace ids first appear. */
  lemma OneRecordPerTraceId(ps: seq<Parsed>)
    ensures var acc := Aggregate(ps);
      && acc.records.Keys == TraceIds(ps)
      && Distinct(acc.order)
      && (forall t :: t in acc.order <==> t in acc.records)
      && (forall i, j :: 0 <= i < j < |acc.order| ==> FirstIndex(ps, acc.order[i]) < FirstIndex(ps, acc.order[j]))
  {
    RecordKeys(ps);
    OrderDistinct(ps);
    OrderFirstSeen(ps);
  }

  lemma FirstIndexUnique(ps: seq<Parsed>, t: string, k: nat)
    requires k < |ps| && ps[k].traceId == t
    requires forall j :: 0 <= j < k && j < |ps| ==> ps[j].traceId != t
    ensures t in TraceIds(ps) && FirstIndex(ps, t) == k
  {
    assert t in TraceIds(ps);
  }

  /** The fields of a record that its first event fixes. */
  function Identity(r: Pending): (string, string, string, string, string, string) {
    (r.traceId, r.parentId, r.name, r.project, r.service, r.host)
  }

  /** The identity a record created for the event `p` gets. */
  function IdentityOf(p: Parsed): (string, string, string, string, string, string) {
    (p.traceId, p.parentId, BeforeFirst(p.name, '-'), p.project, p.service, p.host)
  }

  /** Folding one event never changes the identity of a record, and a
      record it creates takes the event's identity. */
  lemma AbsorbIdentity(acc: Acc, p: Parsed, t: string)
    requires t in Absorb(acc, p).records
    ensures t in acc.records ==> Identity(Absorb(acc, p).records[t]) == Identity(acc.records[t])
    ensures t !in acc.records ==> t == p.traceId && Identity(Absorb(acc, p).records[t]) == IdentityOf(p)
  {
  }

  /** A record's identity and description come from the first event of its
      trace id: `name` is that event's name up to the first `-`. */
  lemma {:induction false} FieldsFromFirstEvent(ps: seq<Parsed>, t: string)
    requires t in Aggregate(ps).records
    ensures t in TraceIds(ps)
    ensures Identity(Aggregate(ps).records[t]) == IdentityOf(ps[FirstIndex(ps, t)])
  {
    RecordKeys(ps);
    var prefix := ps[..|ps| - 1];
    var p := ps[|ps| - 1];
    RecordKeys(prefix);
    TraceIdsSnoc(ps);
    AbsorbIdentity(Aggregate(prefix), p, t);
    if t in Aggregate(prefix).records {
      FieldsFromFirstEvent(prefix, t);
      FirstIndexPrefix(ps, t);
    } else {
      FirstIndexUnique(ps, t, |ps| - 1);
    }
  }

  /** Start and stop: a record's `finished` is the timestamp of the last
      event of its trace id whose name ends with `stop`, its `started` that
      of the last other event; absent when there is no such event. */
  lemma {:induction false} StampsLastWins(ps: seq<Parsed>, t: string)
    requires t in Aggregate(ps).records
    ensures Aggregate(ps).records[t].started == LastStamp(ps, t, false)
    ensures Aggregate(ps).records[t].finished == LastStamp(ps, t, true)
  {
    var prefix := ps[..|ps| - 1];
    if t in Aggregate(prefix).records {
      StampsLastWins(prefix, t);
    } else {
      NoRecordNoStamp(prefix, t);
    }
  }

  lemma {:induction false} NoRecordNoStamp(ps: seq<Parsed>, t: string)
    requires t !in Aggregate(ps).records
    ensures LastStamp(ps, t, false).None? && LastStamp(ps, t, true).None?
    ensures forall key :: LastMeta(ps, t, key).None?
  {
    if |ps| > 0 {
      NoRecordNoStamp(ps[..|ps| - 1], t);
    }
  }

  /** Every record has at least one of `started` and `finished`. */
  lemma HasSomeStamp(ps: seq<Parsed>, t: string)
    requires t in Aggregate(ps).records
    ensures Aggregate(ps).records[t].started.Some? || Aggregate(ps).records[t].finished.Some?
  {
  }

  /** Merging a list of traits: the last non-reserved trait for a key wins,
      and keys no trait names keep their value. */
  lemma {:induction false} MergeMetaLastWins(meta: Dict<string>, traits: Event, key: string)
    ensures Get(MergeMeta(meta, traits), key) == LastTrait(traits, key).OrElse(Get(meta, key))
  {
    if |traits| > 0 {
      MergeMetaLastWins(meta, traits[..|traits| - 1], key);
      var tr := traits[|traits| - 1];
      GetSet(MergeMeta(meta, traits[..|traits| - 1]), MetaKey(tr.name), tr.value, key);
    }
  }

  /** Meta entries, last write wins: under `meta.<name>` a record holds the
      value of the last non-reserved trait `name` among all events of its
      trace id, in input order; `meta.host` holds the first event's host
      unless a trait overrides it. */
  lemma {:induction false} MetaLastWins(ps: seq<Parsed>, t: string, key: string)
    requires t in Aggregate(ps).records
    ensures var r := Aggregate(ps).records[t];
      Get(r.meta, key) == LastMeta(ps, t, key).OrElse(if key == MetaKey("host") then Some(r.host) else None)
  {
    var prefix := ps[..|ps| - 1];
    var p := ps[|ps| - 1];
    var r := Aggregate(ps).records[t];
    if t == p.traceId {
      var before := if t in Aggregate(prefix).records then Aggregate(prefix).records[t] else Fresh(p);
      MergeMetaLastWins(before.meta, p.traits, key);
      if t in Aggregate(prefix).records {
        MetaLastWins(prefix, t, key);
      } else {
        NoRecordNoStamp(prefix, t);
      }
    } else {
      MetaLastWins(prefix, t, key);
    }
  }

  /** No reserved trait name ever produces a `meta.*` entry. */
  lemma {:induction false} ReservedNeverMeta(traits: Event, name: string)
    requires name in Reserved
    ensures LastTrait(traits, MetaKey(name)).None?
  {
    if |traits| > 0 {
      var tr := traits[|traits| - 1];
      if MetaKey(tr.name) == MetaKey(name) {
        assert tr.name == MetaKey(tr.name)[5..] == MetaKey(name)[5..] == name;
      }
      ReservedNeverMeta(traits[..|traits| - 1], name);
    }
  }

  lemma {:induction false} ReservedNeverMetaAll(ps: seq<Parsed>, t: string, name: string)
    requires name in Reserved
    ensures LastMeta(ps, t, MetaKey(name)).None?
  {
    if |ps| > 0 {
      ReservedNeverMeta(ps[|ps| - 1].traits, name);
      ReservedNeverMetaAll(ps[..|ps| - 1], t, name);
    }
  }

  /** So a record's `meta.host` is its host, and the other reserved names
      have no `meta.*` entry at all. */
  lemma ReservedMeta(ps: seq<Parsed>, t: string, name: string)
    requires t in Aggregate(ps).records && name in Reserved
    ensures Get(Aggregate(ps).records[t].meta, MetaKey(name))
            == if name == "host" then Some(Aggregate(ps).records[t].host) else None
  {
    MetaLastWins(ps, t, MetaKey(name));
    ReservedNeverMetaAll(ps, t, name);
    if name != "host" {
      assert MetaKey(name)[5..] != MetaKey("host")[5..];
    }
  }

  /** The batch's earliest timestamp: absent for no events, otherwise the
      least timestamp of any event. */
  lemma {:induction false} EarliestIsMin(ps: seq<Parsed>)
    ensures Aggregate(ps).earliest.None? <==> |ps| == 0
    ensures Aggregate(ps).earliest.Some? ==>
              (forall i :: 0 <= i < |ps| ==> Aggregate(ps).earliest.value <= ps[i].stamp)
              && exists i :: 0 <= i < |ps| && ps[i].stamp == Aggregate(ps).earliest.value
  {
    if |ps| > 0 {
      var prefix := ps[..|ps| - 1];
      var p := ps[|ps| - 1];
      EarliestIsMin(prefix);
      assert ps == prefix + [p];
      EarliestStep(prefix, p, Aggregate(prefix).earliest, Aggregate(ps).earliest);
    }
  }

  /** One step of `EarliestIsMin`: the running minimum of a prefix, updated
      with the next stamp, is the minimum of the longer list. */
  lemma EarliestStep(prefix: seq<Parsed>, p: Parsed, before: Option<int>, after: Option<int>)
    requires before.None? <==> |prefix| == 0
    requires before.Some? ==>
               (forall i :: 0 <= i < |prefix| ==> before.value <= prefix[i].stamp)
               && exists i :: 0 <= i < |prefix| && prefix[i].stamp == before.value
    requires after == if before.None? || before.value > p.stamp then Some(p.stamp) else before
    ensures after.Some?
    ensures forall i :: 0 <= i < |prefix + [p]| ==> after.value <= (prefix + [p])[i].stamp
    ensures exists i :: 0 <= i < |prefix + [p]| && (prefix + [p])[i].stamp == after.value
  {
    var ps := prefix + [p];
    forall i | 0 <= i < |ps| ensures after.value <= ps[i].stamp {
      if i < |prefix| {
        assert ps[i] == prefix[i];
      }
    }
    if after != Some(p.stamp) {
      var i :| 0 <= i < |prefix| && prefix[i].stamp == before.value;
      assert ps[i] == prefix[i];
    } else {
      assert ps[|prefix|] == p;
    }
  }

  /** The batch's latest timestamp: absent for no events, otherwise the
      greatest timestamp of any event. */
  lemma {:induction false} LatestIsMax(ps: seq<Parsed>)
    ensures Aggregate(ps).latest.None? <==> |ps| == 0
    ensures Aggregate(ps).latest.Some? ==>
              (forall i :: 0 <= i < |ps| ==> ps[i].stamp <= Aggregate(ps).latest.value)
              && exists i :: 0 <= i < |ps| && ps[i].stamp == Aggregate(ps).latest.value
  {
    if |ps| > 0 {
      var prefix := ps[..|ps| - 1];
      var p := ps[|ps| - 1];
      LatestIsMax(prefix);
      assert ps == prefix + [p];
      LatestStep(prefix, p, Aggregate(prefix).latest, Aggregate(ps).latest);
    }
  }

  /** One step of `LatestIsMax`: the running maximum of a prefix, updated
      with the next stamp, is the maximum of the longer list. */
  lemma LatestStep(prefix: seq<Parsed>, p: Parsed, before: Option<int>, after: Option<int>)
    requires before.None? <==> |prefix| == 0
    requires before.Some? ==>
               (forall i :: 0 <= i < |prefix| ==> prefix[i].stamp <= before.value)
               && exists i :: 0 <= i < |prefix| && prefix[i].stamp == before.value
    requires after == if before.None? || before.value < p.stamp then Some(p.stamp) else before
    ensures after.Some?
    ensures forall i :: 0 <= i < |prefix + [p]| ==> (prefix + [p])[i].stamp <= after.value
    ensures exists i :: 0 <= i < |prefix + [p]| && (prefix + [p])[i].stamp == after.value
  {
    var ps := prefix + [p];
    forall i | 0 <= i < |ps| ensures ps[i].stamp <= after.value {
      if i < |prefix| {
        assert ps[i] == prefix[i];
      }
    }
    if after != Some(p.stamp) {
      var i :| 0 <= i < |prefix| && prefix[i].stamp == before.value;
      assert ps[i] == prefix[i];
    } else {
      assert ps[|prefix|] == p;
    }
  }

  // ---------------------------------------------------------------------
  // Resolving the records and building the trace

  /** `msec`: a microsecond difference as whole milliseconds,
      `int(d / 1000.0)`, which truncates toward zero. */
  function Msec(d: int): (r: int)
    ensures d >= 0 ==> r >= 0 && r * 1000 <= d < (r + 1) * 1000
    ensures d < 0 ==> r <= 0 && -d - 1000 < -r * 1000 <= -d
  {
    if d >= 0 then d / 1000 else -((-d) / 1000)
  }

  lemma MsecMonotone(a: int, b: int)
    requires 0 <= a <= b
    ensures Msec(a) <= Msec(b)
  {
  }

  /** The records are ready for resolution: every listed key has a record
      with at least one of its two instants, and a non-empty batch has
      both bounds. */
  predicate Consistent(acc: Acc) {
    && (forall t :: t in acc.order ==> t in acc.records
                                       && (acc.records[t].started.Some? || acc.records[t].finished.Some?))
    && (acc.earliest.Some? <==> acc.latest.Some?)
    && (|acc.order| > 0 ==> acc.earliest.Some?)
  }

  lemma AggregateConsistent(ps: seq<Parsed>)
    ensures Consistent(Aggregate(ps))
  {
    RecordKeys(ps);
    EarliestIsMin(ps);
    LatestIsMax(ps);
    forall t | t in Aggregate(ps).order
      ensures Aggregate(ps).records[t].started.Some? || Aggregate(ps).records[t].finished.Some?
    {
      HasSomeStamp(ps, t);
    }
  }

  /** A missing `started` takes `finished` and a missing `finished` takes
      the (possibly just defaulted) `started`; then both are rebased on
      `base` and converted to milliseconds. */
  function Resolve(r: Pending, base: int): Span
    requires r.started.Some? || r.finished.Some?
  {
    var started := if r.started.Some? then r.started.value else r.finished.value;
    var finished := if r.finished.Some? then r.finished.value else started;
    Span(r.traceId, r.parentId,
         Info(r.name, r.project, r.service, r.host, r.meta, Msec(started - base), Msec(finished - base)))
  }

  /** The fold's range runs forwards. */
  lemma AggregateRange(ps: seq<Parsed>)
    ensures Consistent(Aggregate(ps))
    ensures Aggregate(ps).earliest.Some? ==> Aggregate(ps).earliest.value <= Aggregate(ps).latest.value
  {
    AggregateConsistent(ps);
    EarliestIsMin(ps);
    LatestIsMax(ps);
  }

  /** An instant that is known, or else the other one. */
  function Defaulted(own: Option<int>, other: Option<int>): int
    requires own.Some? || other.Some?
  {
    if own.Some? then own.value else other.value
  }

  /** The resolved records, in insertion order. */
  function Finalize(acc: Acc): seq<Span>
    requires Consistent(acc)
  {
    seq(|acc.order|, i requires 0 <= i < |acc.order| => Resolve(acc.records[acc.order[i]], acc.earliest.value))
  }

  /** What `parse_notifications` returns once every event has read: the
      records resolved and linked under a `total` root spanning the
      earliest to the latest timestamp. */
  function Assemble(ps: seq<Parsed>): (t: Trace)
    ensures t.info.name == "total" && t.info.started == 0 && t.info.finished >= 0
    ensures |ps| == 0 ==> t == Trace(TotalInfo("total", 0, 0), [])
  {
    var acc := Aggregate(ps);
    AggregateRange(ps);
    var total := if acc.earliest.Some? then Msec(acc.latest.value - acc.earliest.value) else 0;
    Trace(TotalInfo("total", 0, total), TreeBuilder.Nested(Finalize(acc)))
  }

  /** The whole of `parse_notifications`: read the events (the first bad
      one decides the error), then assemble the trace. */
  function ParseNotifications(events: seq<Event>): (r: Result<Trace, Error>)
    ensures r.Ok? ==> r.value.info.name == "total" && r.value.info.started == 0 && r.value.info.finished >= 0
    ensures |events| == 0 ==> r == Ok(Trace(TotalInfo("total", 0, 0), []))
    ensures r.Err? <==> ParseAll(events).Err?
    ensures r.Err? ==> r.error == ParseAll(events).error
  {
    var ps :- ParseAll(events);
    Ok(Assemble(ps))
  }

  /** The records handed to the tree builder: one per trace id, in first-seen
      order, so their trace ids are distinct. */
  lemma FinalizedIds(ps: seq<Parsed>)
    ensures Consistent(Aggregate(ps))
    ensures var spans := Finalize(Aggregate(ps));
      && |spans| == |Aggregate(ps).order|
      && (forall i :: 0 <= i < |spans| ==> spans[i].traceId == Aggregate(ps).order[i])
      && TreeBuilder.DistinctIds(spans)
  {
    AggregateConsistent(ps);
    OrderDistinct(ps);
    var acc := Aggregate(ps);
    forall i | 0 <= i < |acc.order| ensures Finalize(acc)[i].traceId == acc.order[i] {
      FieldsFromFirstEvent(ps, acc.order[i]);
    }
  }

  /** The root's duration is the batch's extent: the time from the earliest
      event to the latest, in whole milliseconds. */
  lemma AssembleTotal(ps: seq<Parsed>)
    requires |ps| > 0
    ensures Extends(ps, Assemble(ps).info.finished)
  {
    var i, j := Extent(ps);
    assert Assemble(ps).info.finished == Msec(ps[j].stamp - ps[i].stamp);
  }

  /** `ms` is the extent of the records: the whole milliseconds from the
      least of their stamps to the greatest. */
  predicate Extends(ps: seq<Parsed>, ms: int) {
    exists i, j :: 0 <= i < |ps| && 0 <= j < |ps|
      && (forall k :: 0 <= k < |ps| ==> ps[i].stamp <= ps[k].stamp <= ps[j].stamp)
      && ms == Msec(ps[j].stamp - ps[i].stamp)
  }

  /** The least and the greatest stamp of a non-empty batch, as the fold
      finds them. */
  lemma Extent(ps: seq<Parsed>) returns (i: nat, j: nat)
    requires |ps| > 0
    ensures i < |ps| && j < |ps| && (forall k :: 0 <= k < |ps| ==> ps[i].stamp <= ps[k].stamp <= ps[j].stamp)
    ensures Aggregate(ps).earliest == Some(ps[i].stamp) && Aggregate(ps).latest == Some(ps[j].stamp)
  {
    EarliestIsMin(ps);
    LatestIsMax(ps);
    var acc := Aggregate(ps);
    i :| 0 <= i < |ps| && ps[i].stamp == acc.earliest.value;
    j :| 0 <= j < |ps| && ps[j].stamp == acc.latest.value;
  }

  /** The root's children are the tree `_build_tree` makes of the resolved
      records: one record per trace id in first-seen order, nested so that
      every node carries exactly the records naming it as parent, all the
      way down. */
  lemma AssembleTree(ps: seq<Parsed>)
    ensures Consistent(Aggregate(ps))
    ensures var acc := Aggregate(ps); var spans := Finalize(acc);
      && |spans| == |acc.order|
      && (forall i :: 0 <= i < |spans| ==> spans[i].traceId == acc.order[i])
      && TreeBuilder.DistinctIds(spans)
      && Assemble(ps).children == TreeBuilder.Nested(spans)
      && forall i :: 0 <= i < |Assemble(ps).children| ==>
           TreeBuilder.Follows(TreeBuilder.BuildTree(spans), Assemble(ps).children[i])
  {
    FinalizedIds(ps);
    TreeBuilder.NestedFollows(Finalize(Aggregate(ps)));
  }

  /** What a trace built from the records `ps` is: a `total` root starting
      at 0 and lasting from the earliest to the latest record (0 ms for no
      records), over the tree of the resolved records. */
  predicate TraceOfBatch(ps: seq<Parsed>, tr: Trace) {
    && tr.info.name == "total" && tr.info.started == 0
    && (|ps| == 0 ==> tr.info.finished == 0)
    && (|ps| > 0 ==> Extends(ps, tr.info.finished))
    && Consistent(Aggregate(ps))
    && TreeBuilder.DistinctIds(Finalize(Aggregate(ps)))
    && tr.children == TreeBuilder.Nested(Finalize(Aggregate(ps)))
    && forall i :: 0 <= i < |tr.children| ==>
         TreeBuilder.Follows(TreeBuilder.BuildTree(Finalize(Aggregate(ps))), tr.children[i])
  }

  lemma AssembleIsTrace(ps: seq<Parsed>)
    ensures TraceOfBatch(ps, Assemble(ps))
  {
    AssembleTree(ps);
    if |ps| > 0 {
      AssembleTotal(ps);
    }
  }

  /** A batch that parses yields the trace of its records, one record per
      event. */
  lemma ParseNotificationsTrace(events: seq<Event>)
    requires ParseNotifications(events).Ok?
    ensures ParseAll(events).Ok? && |ParseAll(events).value| == |events|
    ensures TraceOfBatch(ParseAll(events).value, ParseNotifications(events).value)
  {
    AssembleIsTrace(ParseAll(events).value);
  }

  /** Span `i` of the finalized records has the instants that `start` and
      `stop` give it: a missing one replaced by the other, as whole
      milliseconds after the earliest event of the batch, and a span missing
      either half lasts 0 ms. */
  predicate TimedBy(acc: Acc, i: int, start: Option<int>, stop: Option<int>)
    requires Consistent(acc) && 0 <= i < |acc.order|
  {
    var s := Finalize(acc)[i]; var e := acc.earliest.value;
    && (start.Some? || stop.Some?)
    && s.info.started == Msec(Defaulted(start, stop) - e)
    && s.info.finished == Msec(Defaulted(stop, start) - e)
    && (start.None? || stop.None? ==> s.info.started == s.info.finished)
  }

  /** A resolved span's instants come from the last start and the last stop
      of its trace id (see `TimedBy`). */
  lemma ResolvedTiming(ps: seq<Parsed>, i: int)
    requires 0 <= i < |Aggregate(ps).order|
    ensures Consistent(Aggregate(ps))
    ensures var t := Aggregate(ps).order[i];
      TimedBy(Aggregate(ps), i, LastStamp(ps, t, false), LastStamp(ps, t, true))
  {
    AggregateConsistent(ps);
    var acc := Aggregate(ps);
    var t := acc.order[i];
    StampsLastWins(ps, t);
    FinalizeTiming(acc, i, LastStamp(ps, t, false), LastStamp(ps, t, true));
  }

  /** Resolution of one record whose known instants are `start` and `stop`:
      a missing half takes the other's value. */
  lemma FinalizeTiming(acc: Acc, i: int, start: Option<int>, stop: Option<int>)
    requires Consistent(acc) && 0 <= i < |acc.order|
    requires acc.records[acc.order[i]].started == start && acc.records[acc.order[i]].finished == stop
    ensures TimedBy(acc, i, start, stop)
  {
  }

  /** Every resolved instant lies between 0 and the root's `finished`. */
  lemma ResolvedWithinTotal(ps: seq<Parsed>, i: int)
    requires 0 <= i < |Aggregate(ps).order|
    ensures Consistent(Aggregate(ps))
    ensures var acc := Aggregate(ps); var s := Finalize(acc)[i];
      && 0 <= s.info.started <= Msec(acc.latest.value - acc.earliest.value)
      && 0 <= s.info.finished <= Msec(acc.latest.value - acc.earliest.value)
  {
    AggregateConsistent(ps);
    var acc := Aggregate(ps);
    var t := acc.order[i];
    StampsLastWins(ps, t);
    StampWithinBounds(ps, t, false);
    StampWithinBounds(ps, t, true);
    FinalizeWithin(acc, i);
  }

  /** Resolution keeps a record's instants inside the batch's window when
      its known instants lie there. */
  lemma FinalizeWithin(acc: Acc, i: int)
    requires Consistent(acc) && 0 <= i < |acc.order|
    requires var r := acc.records[acc.order[i]];
      && (r.started.Some? ==> acc.earliest.value <= r.started.value <= acc.latest.value)
      && (r.finished.Some? ==> acc.earliest.value <= r.finished.value <= acc.latest.value)
    ensures var s := Finalize(acc)[i]; var top := Msec(acc.latest.value - acc.earliest.value);
      0 <= s.info.started <= top && 0 <= s.info.finished <= top
  {
    var r := acc.records[acc.order[i]];
    var e := acc.earliest.value;
    var l := acc.latest.value;
    assert Finalize(acc)[i] == Resolve(r, e);
    if r.started.Some? {
      MsecMonotone(r.started.value - e, l - e);
    }
    if r.finished.Some? {
      MsecMonotone(r.finished.value - e, l - e);
    }
  }

  /** A timestamp `LastStamp` reports lies between the batch's bounds. */
  lemma StampWithinBounds(ps: seq<Parsed>, t: string, stop: bool)
    ensures var acc := Aggregate(ps); var v := LastStamp(ps, t, stop);
      v.Some? ==> && acc.earliest.Some? && acc.latest.Some?
                  && acc.earliest.value <= v.value <= acc.latest.value
  {
    var v := LastStamp(ps, t, stop);
    if v.Some? {
      LastStampIsAnEvent(ps, t, stop);
      EarliestIsMin(ps);
      LatestIsMax(ps);
      var i :| 0 <= i < |ps| && ps[i].stamp == v.value;
      assert Aggregate(ps).earliest.value <= ps[i].stamp <= Aggregate(ps).latest.value;
    }
  }

  /** A timestamp `LastStamp` reports is that of some event. */
  lemma {:induction false} LastStampIsAnEvent(ps: seq<Parsed>, t: string, stop: bool)
    ensures LastStamp(ps, t, stop).Some? ==>
              exists i :: 0 <= i < |ps| && ps[i].stamp == LastStamp(ps, t, stop).value
  {
    if |ps| > 0 {
      var prefix := ps[..|ps| - 1];
      LastStampIsAnEvent(prefix, t, stop);
      if LastStamp(ps, t, stop).Some? && LastStamp(ps, t, stop) == LastStamp(prefix, t, stop) {
        var i :| 0 <= i < |prefix| && prefix[i].stamp == LastStamp(prefix, t, stop).value;
        assert ps[i] == prefix[i];
      }
    }
  }
}
