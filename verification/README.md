# osprofiler: the Ceilometer trace parser and the test-suite style checks

This project models, in Dafny, two parts of osprofiler.

- **The Ceilometer parser** is `osprofiler/parsers/ceilometer.py`. `parse_notifications` reads a batch of profiler events. Each event is a list of `{name, value}` traits. The function:
  - keeps one record per `trace_id`, in the order the ids are first seen;
  - fills each record from the first event of its id;
  - copies every non-reserved trait into `meta.<name>` entries, where the last write wins;
  - takes `finished` from the last event whose name ends in `stop`, and `started` from the last other event;
  - defaults a missing half to the other half;
  - rebases both on the earliest event and converts them to whole milliseconds;
  - hands the records to `_build_tree`, which links them by `parent_id` into a forest sorted by start.

  The result sits under a synthetic `total` root that spans the earliest to the latest event.
- **The style checks** are in `tests/hacking/checks.py`:
  - the `skip_ignored_lines` decorator;
  - the `N350` single-quote scanner;
  - `_parse_assert_mock_str`;
  - the `N301`–`N303` check of `mock` assertion method names.

Modules, one file each:

| file | module | what it holds |
|---|---|---|
| wrappers.dfy | `Wrappers` | `Option` and `Result`; `Result` stands for a raised exception |
| text.dfy | `Text` | `strip`, `startswith`, `endswith`, `find` and `split(sep)[0]` with Python's meaning |
| ordered_dict.dfy | `OrderedDict` | an insertion-ordered `dict`, modelled as an association list |
| timestamp.dfy | `Timestamp` | the two `strptime` formats, calendar validation, and microseconds since 0001-01-01 |
| spans.dfy | `Spans` | span records, nested trees and the `total` root |
| tree_builder.dfy | `TreeBuilder` | `_build_tree` |
| notifications.dfy | `Notifications` | `parse_notifications`, with `find_field` and `msec` |
| ceilometer_examples.dfy | `CeilometerExamples` | the tree-building test vectors |
| notification_examples.dfy | `NotificationStamps`, `NotificationExamples` | the five-event test vector: timestamps, reading the events, folding them |
| notification_trace.dfy | `NotificationTrace` | the five-event test vector: resolving, nesting, the whole parse |
| hacking.dfy | `HackingChecks` | the style checks |
| hacking_examples.dfy | `HackingExamples` | worked single-quote cases |

The definitions below carry the model without a contract of their own; the lemmas in the table state what they compute.

| definition | source |
|---|---|
| `TreeBuilder.Link` | osprofiler/parsers/ceilometer.py:32-42, the linking loop |
| `TreeBuilder.SortByStart`, `TreeBuilder.Insert` | osprofiler/parsers/ceilometer.py:44-47, the stable sorts by `started` |
| `Notifications.MergeMeta` | osprofiler/parsers/ceilometer.py:91-96, copying traits into `meta.*` |
| `Notifications.Absorb` | osprofiler/parsers/ceilometer.py:78-107, the loop body for one event |
| `Notifications.Aggregate` | osprofiler/parsers/ceilometer.py:57-107, the loop over the events |
| `Notifications.Resolve` | osprofiler/parsers/ceilometer.py:118-124, defaulting and rebasing one record |
| `Notifications.Finalize` | osprofiler/parsers/ceilometer.py:115-124, the loop over `result.values()` |
| `HackingChecks.Scan` | tests/hacking/checks.py:213-253, the single-quote scan |
| `HackingChecks.MockMessage` | tests/hacking/checks.py:106-131, the report messages |

## Model

| member | source | states |
|---|---|---|
| TreeBuilder.BuildTree | osprofiler/parsers/ceilometer.py:32-47 | Each children list holds exactly the records whose `parent_id` is that key, sorted by start. The top-level list holds exactly the records whose parent is not a key, sorted by start. Every record gets a children list. |
| TreeBuilder.LinkTop | osprofiler/parsers/ceilometer.py:34-42 | The linking loop puts at top level exactly the records whose parent is not a key of the map, in map order. |
| TreeBuilder.LinkChildren | osprofiler/parsers/ceilometer.py:34-42 | Under a key, the loop collects exactly the records naming it as parent, in map order, and an empty list for keys that are not in the map. |
| TreeBuilder.LinkKeys | osprofiler/parsers/ceilometer.py:34-42 | `setdefault` gives a children list to every record and to every parent key the loop meets, and to nothing else. |
| TreeBuilder.LinkFreshKey | osprofiler/parsers/ceilometer.py:34-42 | A key the loop has not met has no children among the records. |
| TreeBuilder.WithParentCount | osprofiler/parsers/ceilometer.py:37-40 | Selecting the children of `k` keeps every record naming `k`, as often as it occurs, and nothing else. |
| TreeBuilder.OrphansCount | osprofiler/parsers/ceilometer.py:37-42 | Selecting the top-level records keeps every record whose parent is not a key, as often as it occurs, and nothing else. |
| TreeBuilder.SortPermutes | osprofiler/parsers/ceilometer.py:44-47 | Sorting by `info.started` returns a permutation of its input. |
| TreeBuilder.SortSorted | osprofiler/parsers/ceilometer.py:44-47 | Sorting by `info.started` returns a list in non-decreasing start order. |
| TreeBuilder.SortStable | osprofiler/parsers/ceilometer.py:44-47 | The sort is stable: spans with equal starts keep their input order, as Python's `sort` and `sorted` do. |
| TreeBuilder.InsertCount | osprofiler/parsers/ceilometer.py:44-47 | One insertion step of the sort adds exactly its element. |
| TreeBuilder.InsertSorted | osprofiler/parsers/ceilometer.py:44-47 | One insertion step keeps a sorted list sorted. |
| TreeBuilder.InsertStable | osprofiler/parsers/ceilometer.py:44-47 | One insertion step puts its element before every later element with the same start. |
| TreeBuilder.WithParentAppend | osprofiler/parsers/ceilometer.py:34-40 | Grouping records by parent distributes over splitting the input: the children found in two runs of records, in order, are the children of the whole. |
| TreeBuilder.PlacedExactlyOnce | osprofiler/parsers/ceilometer.py:34-47 | When trace ids are distinct, every record appears exactly once in the result: in its parent's list when the parent is a key, at top level otherwise, and in no other children list. |
| TreeBuilder.PlacedAtTop | osprofiler/parsers/ceilometer.py:38-47 | A record is at top level exactly as often as it is in the input when its parent is not a key, and never otherwise. |
| TreeBuilder.PlacedUnderParent | osprofiler/parsers/ceilometer.py:38-47 | A record whose parent is a key appears in that parent's children list as often as in the input. |
| TreeBuilder.PlacedNowhereElse | osprofiler/parsers/ceilometer.py:38-47 | A record never appears under a key other than its `parent_id`. |
| TreeBuilder.ForestSorted | osprofiler/parsers/ceilometer.py:44-47 | Every list returned is sorted by start, and spans with equal starts keep the map's order. |
| TreeBuilder.TopFromInput | osprofiler/parsers/ceilometer.py:41-42 | Every top-level span is an input record whose parent is not a key. |
| TreeBuilder.ChildFromInput | osprofiler/parsers/ceilometer.py:38-40 | Every span in a children list is an input record that names that key as its parent. |
| TreeBuilder.Nested | osprofiler/parsers/ceilometer.py:47 | The nested JSON view has one tree per top-level span, in the same order, rooted at that span. |
| TreeBuilder.NestedFollows | osprofiler/parsers/ceilometer.py:32-47 | With distinct trace ids, every tree of the nested view follows the forest at every depth: each node holds, in order, exactly the spans listed under its id, so the depth bound never cuts a list short. |
| TreeBuilder.ExpandFollows | osprofiler/parsers/ceilometer.py:34-47 | A record reached down a line of descent, expanded with the depth left to it, follows the forest all the way down. |
| TreeBuilder.ChildFollows | osprofiler/parsers/ceilometer.py:38-40 | Each child of such a record, expanded one level deeper, follows the forest too. |
| TreeBuilder.DescentShort | osprofiler/parsers/ceilometer.py:34-42 | With distinct trace ids, a chain of records from a top-level record down through `parent_id` links never repeats a record, so it is no longer than the input. |
| TreeBuilder.FollowsIntro | osprofiler/parsers/ceilometer.py:36-40 | A node whose children are, in order, the spans listed under its id, each following the forest, follows the forest. |
| TreeBuilder.ExpandAllAt | osprofiler/parsers/ceilometer.py:36-40 | The `i`-th tree of an expanded list is the expansion of the `i`-th span. |
| TreeBuilder.Expand | osprofiler/parsers/ceilometer.py:36-40 | A nested node is rooted at the span it expands. |
| TreeBuilder.ExpandAll | osprofiler/parsers/ceilometer.py:36-40 | Expanding a list gives one tree per span, in order. |
| TreeBuilder.BuildEmptyTree | tests/parsers/test_ceilometer.py:24-25 | The empty map gives the empty forest and `[]`. |
| CeilometerExamples.BuildComplexForest | tests/parsers/test_ceilometer.py:27-40 | On the complex-tree input, `1` and `2` are top level, `11` is under `1`, `21` and `22` are under `2`, and `112`, `113` and `114` are under `11` in start order. |
| CeilometerExamples.BuildComplexTree | tests/parsers/test_ceilometer.py:27-76 | The complex-tree test's expected nested output. |
| Notifications.FindField | osprofiler/parsers/ceilometer.py:60-61 | A missing field fails with an error naming that field. |
| Notifications.FindFieldFirst | osprofiler/parsers/ceilometer.py:60-61 | `find_field` succeeds exactly when some trait has the name, and then returns the value of the first such trait. |
| Notifications.FindFieldAt | osprofiler/parsers/ceilometer.py:60-61 | The first trait with the name supplies the value. |
| Notifications.ParseEvent | osprofiler/parsers/ceilometer.py:60-76 | An event reads exactly when all seven fields exist and the timestamp parses in one of the two formats. The record then carries those fields' first values and the parsed instant. Otherwise the error names the first missing field in reading order (`trace_id`, `parent_id`, `name`, `project`, `service`, `host`, `timestamp`). Only when all seven are present is a timestamp that parses in neither format the error, carrying the timestamp text. |
| Notifications.ParseAll | osprofiler/parsers/ceilometer.py:57-76 | A batch reads to one record per event, in order. Otherwise the error is that of the first event that fails, and every earlier event reads. |
| Notifications.ParseAllOk | osprofiler/parsers/ceilometer.py:57-76 | When every event reads, the batch reads to exactly those records. |
| Timestamp.Parse | osprofiler/parsers/ceilometer.py:71-76 | The fractional format is tried first, and the whole-second format only when it fails. `None` (a `ValueError`) means neither matches. A parsed instant is non-negative. |
| Timestamp.WithFraction | osprofiler/parsers/ceilometer.py:72-73 | A match of `%Y-%m-%dT%H:%M:%S.%f` is a valid calendar instant. |
| Timestamp.WithoutFraction | osprofiler/parsers/ceilometer.py:75-76 | A match of `%Y-%m-%dT%H:%M:%S` is a valid instant with zero microseconds. |
| Timestamp.DatePart | osprofiler/parsers/ceilometer.py:72-76 | The `%Y-%m-%dT%H:%M:%S` part both formats share ends inside the text and leaves the microseconds at zero. |
| Timestamp.FieldThen | osprofiler/parsers/ceilometer.py:72-76 | One field and the literal after it consume at least two characters and never run past the text. |
| Timestamp.WithFractionExactly | osprofiler/parsers/ceilometer.py:72-73 | The first format returns `dt` exactly when `dt` is a valid instant and the text is `dt` rendered in an admitted layout (one- or two-digit fields, a space-padded day, `t` or `T`), then a dot and one to six digits whose right-padded value is `dt`'s microseconds. |
| Timestamp.WithoutFractionExactly | osprofiler/parsers/ceilometer.py:75-76 | The second format returns `dt` exactly when `dt` is a valid whole-second instant and the text is `dt` rendered in an admitted layout. |
| Timestamp.WithFractionShape | osprofiler/parsers/ceilometer.py:72-73 | Whatever the first format accepts is an admitted rendering of the instant it returns, a dot and that instant's fraction digits. |
| Timestamp.DatePartShape | osprofiler/parsers/ceilometer.py:72-76 | A date part that reads to a valid instant is that instant rendered in an admitted layout, up to where the part ends. |
| Timestamp.DatePartReads | osprofiler/parsers/ceilometer.py:72-76 | A date part that reads was read as four digits and a dash, then month, day, hour and minute each with its literal, then the seconds, and its instant is made of those values. |
| Timestamp.ReadText | osprofiler/parsers/ceilometer.py:72-76 | A field that reads is its value written in the width it was read in: two digits, one digit, or, for the day only, a space and a digit. |
| Timestamp.FieldThenText | osprofiler/parsers/ceilometer.py:72-76 | A field and literal that read are the value in its width followed by the literal, `T` matching either case. |
| Timestamp.FieldsFirst | osprofiler/parsers/ceilometer.py:72-76 | Reading fields in a row reads the first field, then the rest from where it ends. |
| Timestamp.LaidRender | osprofiler/parsers/ceilometer.py:72-76 | Fields laid out as in a rendering spell that rendering. |
| Timestamp.LaidDayRender | osprofiler/parsers/ceilometer.py:72-76 | Calendar fields laid out as in a rendering spell its calendar half. |
| Timestamp.PadValue | osprofiler/parsers/ceilometer.py:72-76 | A run of digits is its own value zero-padded to its length. |
| Timestamp.ValueBound | osprofiler/parsers/ceilometer.py:72-76 | A run of `n` digits is below `10^n`. |
| Timestamp.ShortField | osprofiler/parsers/ceilometer.py:72-76 | `%m`, `%H`, `%M` and `%S` consume at least one character and never run past the text. |
| Timestamp.DayField | osprofiler/parsers/ceilometer.py:72-76 | `%d`, which also admits a space before one digit, consumes at least one character and never runs past the text. |
| Timestamp.Fields | osprofiler/parsers/ceilometer.py:72-76 | Reading the fields between the year and the seconds gives one value per field and ends inside the text. |
| Timestamp.Fraction | osprofiler/parsers/ceilometer.py:72-73 | `%f` after the date part yields a valid instant that differs from the date part only in its microseconds. |
| Timestamp.DatePartOfRender | osprofiler/parsers/ceilometer.py:72-76 | Round trip for every shape `strptime` admits (zero-padded, one-digit or space-padded day, `t` or `T`): the date part of any such rendering, followed by a non-digit or the end, reads back as the rendered instant and ends where the rendering ends. |
| Timestamp.ParseRender | osprofiler/parsers/ceilometer.py:71-73 | Round trip through the first format for every admitted shape and every fraction of one to six digits, which `%f` pads on the right. |
| Timestamp.ParseRenderSeconds | osprofiler/parsers/ceilometer.py:71-76 | Round trip through the fallback for every admitted shape: a rendering without fraction fails the first format and parses with the second. |
| Timestamp.FractionOf | osprofiler/parsers/ceilometer.py:72-73 | A dot and one to six digits ending the text give the fraction's microseconds. |
| Timestamp.WithFractionOf | osprofiler/parsers/ceilometer.py:72-73 | A date part followed by a dot and a fraction ending the text parses as the date part's instant with those microseconds. |
| Timestamp.RenderDot | osprofiler/parsers/ceilometer.py:72-73 | In a rendering followed by a dot, the date part ends at the dot. |
| Timestamp.DatePartOf | osprofiler/parsers/ceilometer.py:72-76 | Fields found in place, each followed by its separator, read as the date part with those values. |
| Timestamp.FieldOf | osprofiler/parsers/ceilometer.py:72-76 | A field written in any admitted width, followed by a non-digit, reads back as its value. |
| Timestamp.FieldThenOf | osprofiler/parsers/ceilometer.py:72-76 | A field written in any admitted width, followed by its separator, reads back as its value and ends after the separator. |
| Timestamp.ParseFormat | osprofiler/parsers/ceilometer.py:71-73 | Round trip: an ISO rendering with six fraction digits parses back to the same instant through the first format. |
| Timestamp.ParseFormatSeconds | osprofiler/parsers/ceilometer.py:71-76 | Round trip through the fallback: a whole-second rendering fails the first format and parses with the second. |
| Timestamp.ValuePad | osprofiler/parsers/ceilometer.py:72-76 | Reading back a zero-padded number gives the number. |
| Timestamp.ToMicros | osprofiler/parsers/ceilometer.py:112 | An instant is a non-negative microsecond count. |
| Timestamp.ToMicrosOrder | osprofiler/parsers/ceilometer.py:103-107 | On valid instants, one is earlier than another as `datetime` compares them (field by field) exactly when its count is smaller, and two instants are equal exactly when their counts are. So the parser's comparisons can be made on counts. |
| Timestamp.BeforeIsLess | osprofiler/parsers/ceilometer.py:103-107 | An earlier instant has a smaller count. |
| Timestamp.DayNumberOrder | osprofiler/parsers/ceilometer.py:103-107 | An earlier calendar day has a smaller day number. |
| Timestamp.DaysBeforeYearGap | osprofiler/parsers/ceilometer.py:103-107 | The days before a later year include the whole of every earlier year. |
| Timestamp.DaysBeforeYearStep | osprofiler/parsers/ceilometer.py:103-107 | Each year adds its own length, 365 or 366 days, to the days before it. |
| Timestamp.DaysBeforeMonthGap | osprofiler/parsers/ceilometer.py:103-107 | The days before a later month include the whole of every earlier month, and no month runs past the year. |
| OrderedDict.Get | osprofiler/parsers/ceilometer.py:96 | A lookup finds a value exactly when the key is present. |
| OrderedDict.GetStored | osprofiler/parsers/ceilometer.py:96 | A value found is stored under that key. |
| OrderedDict.GetSet | osprofiler/parsers/ceilometer.py:96 | After `d[k] = v`, `k` reads `v` and every other key reads as before. |
| OrderedDict.SetKeepsOrder | osprofiler/parsers/ceilometer.py:96 | Assignment keeps existing keys in place and appends a new key last, so keys stay distinct. |
| OrderedDict.Set | osprofiler/parsers/ceilometer.py:79-101 | `d[k] = v` keeps the number of entries when `k` is present and adds one entry otherwise. |
| OrderedDict.SetNew | osprofiler/parsers/ceilometer.py:96 | Assigning to a new key appends it. |
| Notifications.AggregateSnoc | osprofiler/parsers/ceilometer.py:57-107 | The loop over `n + 1` events is the loop body applied after the loop over the first `n`. |
| Notifications.MergeMetaAppend | osprofiler/parsers/ceilometer.py:94-96 | Copying traits in two batches is copying them all. |
| Notifications.MergeMetaReserved | osprofiler/parsers/ceilometer.py:91-96 | Reserved traits leave the meta entries alone. |
| Notifications.MergeMetaLastWins | osprofiler/parsers/ceilometer.py:94-96 | After the copy, a key holds the value of the last non-reserved trait stored under it, or keeps its old value. |
| Notifications.OneRecordPerTraceId | osprofiler/parsers/ceilometer.py:78-89 | The result holds exactly one record per distinct trace id, listed once each in first-seen order. |
| Notifications.RecordKeys | osprofiler/parsers/ceilometer.py:78-89 | The records' keys are the batch's trace ids, and the order lists exactly those keys. |
| Notifications.OrderDistinct | osprofiler/parsers/ceilometer.py:78-89 | The insertion order lists each key once. |
| Notifications.OrderFirstSeen | osprofiler/parsers/ceilometer.py:78-89 | Keys are listed in the order their trace ids first appear. |
| Notifications.FirstIndex | osprofiler/parsers/ceilometer.py:78 | The position of the first event with a trace id holds that id, and no earlier event does. |
| Notifications.FirstIndexUnique | osprofiler/parsers/ceilometer.py:78 | The first event of a trace id is unique. |
| Notifications.FieldsFromFirstEvent | osprofiler/parsers/ceilometer.py:78-89 | A record's ids, project, service and host come from the first event of its trace id. Its name is that event's name up to the first `-`. |
| Notifications.StampsLastWins | osprofiler/parsers/ceilometer.py:98-101 | `finished` is the timestamp of the last event of the id whose name ends with `stop`. `started` is that of the last other event. Each is absent when there is no such event. |
| Notifications.NoRecordNoStamp | osprofiler/parsers/ceilometer.py:78-101 | An id without a record has no events, so no stamp and no meta. |
| Notifications.HasSomeStamp | osprofiler/parsers/ceilometer.py:98-101 | Every record has at least one of `started` and `finished`. |
| Notifications.MetaLastWins | osprofiler/parsers/ceilometer.py:78-96 | `meta.<name>` holds the value of the last non-reserved trait `name` among all events of the id, in input order. `meta.host` holds the first event's host unless a trait overrides it. |
| Notifications.ReservedNeverMeta | osprofiler/parsers/ceilometer.py:91-96 | No reserved trait name becomes a meta entry of a list of traits. |
| Notifications.ReservedNeverMetaAll | osprofiler/parsers/ceilometer.py:91-96 | No reserved trait name becomes a meta entry across a batch. |
| Notifications.ReservedMeta | osprofiler/parsers/ceilometer.py:78-96 | A record's `meta.host` is its host, and the other reserved names have no `meta.*` entry. |
| Notifications.EarliestIsMin | osprofiler/parsers/ceilometer.py:103-104 | `started_at` is absent exactly for an empty batch, and otherwise is the least timestamp of any event. |
| Notifications.LatestIsMax | osprofiler/parsers/ceilometer.py:106-107 | `finished_at` is absent exactly for an empty batch, and otherwise is the greatest timestamp of any event. |
| Notifications.AggregateConsistent | osprofiler/parsers/ceilometer.py:115-121 | After the loop, every record can be resolved: it has an instant, and a non-empty batch has both bounds. |
| Notifications.AggregateRange | osprofiler/parsers/ceilometer.py:103-107 | The batch's earliest instant is no later than its latest. |
| Notifications.Msec | osprofiler/parsers/ceilometer.py:109-113 | A microsecond difference becomes whole milliseconds, truncated toward zero. |
| Notifications.MsecMonotone | osprofiler/parsers/ceilometer.py:109-113 | The conversion keeps non-negative order. |
| Notifications.FinalizedIds | osprofiler/parsers/ceilometer.py:115-132 | The records handed to `_build_tree` are one per trace id, in first-seen order, with distinct ids. |
| Notifications.ResolvedTiming | osprofiler/parsers/ceilometer.py:115-124 | A resolved span starts at its last start and finishes at its last stop, a missing one replaced by the other. Both are whole milliseconds after the batch's earliest event. A span missing either half lasts 0 ms. |
| Notifications.FinalizeTiming | osprofiler/parsers/ceilometer.py:118-124 | Resolving one record defaults a missing half to the other half and rebases both. |
| Notifications.ResolvedWithinTotal | osprofiler/parsers/ceilometer.py:123-130 | Every resolved instant lies between 0 and the root's `finished`. |
| Notifications.FinalizeWithin | osprofiler/parsers/ceilometer.py:118-124 | A record whose instants lie in the batch window resolves inside `[0, total]`. |
| Notifications.StampWithinBounds | osprofiler/parsers/ceilometer.py:98-107 | Every record instant lies between the batch's earliest and latest timestamps. |
| Notifications.LastStampIsAnEvent | osprofiler/parsers/ceilometer.py:98-101 | A record instant is the timestamp of some event. |
| Notifications.Assemble | osprofiler/parsers/ceilometer.py:126-133 | The root is named `total`, starts at 0 and finishes at a non-negative time. With no records, the root has no children and finishes at 0. |
| Notifications.ParseNotifications | osprofiler/parsers/ceilometer.py:50-133 | The parse fails exactly when reading fails, with the same error. On success the root is `total`, starting at 0 and finishing at a non-negative time. An empty batch gives the empty `total` trace. |
| Notifications.ParseNotificationsTrace | osprofiler/parsers/ceilometer.py:50-133 | On success every event has read, and the result is the trace of those records: a `total` root from 0 to the batch's extent, holding the nested `_build_tree` of the resolved records, which follows that forest at every depth. |
| Notifications.AssembleIsTrace | osprofiler/parsers/ceilometer.py:115-133 | The assembled value is the trace of its records: root `total` from 0 to the extent (0 for an empty batch), children the nested `_build_tree` of the resolved records, whose trace ids are distinct. |
| Notifications.AssembleTotal | osprofiler/parsers/ceilometer.py:103-107 | The root's `finished` is `msec` of the time from the earliest event to the latest. |
| Notifications.AssembleTree | osprofiler/parsers/ceilometer.py:115-132 | The root's children are the nested `_build_tree` of the resolved records, one per trace id in first-seen order with distinct ids, and each tree follows that forest at every depth. |
| Notifications.Extent | osprofiler/parsers/ceilometer.py:103-107 | A non-empty batch has an event with the least timestamp and one with the greatest, and these are `started_at` and `finished_at`. |
| NotificationExamples.ReadEvents | tests/parsers/test_ceilometer.py:89-353 | The five test events read to the expected records: ids, names, hosts and microsecond instants. |
| NotificationTrace.FoldBatch | tests/parsers/test_ceilometer.py:89-353 | The loop over the five records gives three records (`wsgi` POST, `wsgi` GET, `db`) with the expected meta entries and instants. |
| NotificationTrace.ResolveFolded | tests/parsers/test_ceilometer.py:355-390 | Resolution gives the POST span 0/0, the GET span 88668/41629 µs rebased, and the db span 56589/76710 µs, all in milliseconds. |
| NotificationTrace.NestSpans | tests/parsers/test_ceilometer.py:355-390 | The db span nests under POST, and POST precedes GET at top level. |
| NotificationTrace.ParseTestBatch | tests/parsers/test_ceilometer.py:89-392 | The parse-notifications test's expected result: `total` 0–88, POST `wsgi` 0–0 holding `db` 56–76, then GET `wsgi` 88–41. |
| NotificationTrace.AssembleBatch | osprofiler/parsers/ceilometer.py:115-133 | For any five increasing instants of that shape, the assembled trace has the same structure, with timings as `msec` differences from the first. |
| Text.Strip | tests/hacking/checks.py:70 | `strip()` never leaves whitespace at either end, and its result is empty exactly for an all-whitespace line. |
| Text.StripSlice | tests/hacking/checks.py:70 | The stripped line is a contiguous slice of the line, and everything cut off before and after it is whitespace. |
| Text.StripPadded | tests/hacking/checks.py:70 | Stripping a padded word with no whitespace at either end gives back exactly the word. |
| Text.StripIdempotent | tests/hacking/checks.py:70 | Stripping twice removes nothing more. |
| Text.FindFrom | tests/hacking/checks.py:78-83 | `find` returns the first occurrence at or after the start, or `None` (Python's -1) when there is none. |
| Text.BeforeFirst | osprofiler/parsers/ceilometer.py:81 | `split("-")[0]` is a prefix without the separator, ending where the first separator starts. |
| HackingChecks.SkipIgnored | tests/hacking/checks.py:66-75 | An ignored line (blank, a comment, or ending in `# noqa`) yields nothing. Any other line yields the wrapped check's first report when it has one. |
| HackingChecks.BlankIgnored | tests/hacking/checks.py:70-72 | Whitespace-only lines are ignored. |
| HackingChecks.CommentIgnored | tests/hacking/checks.py:70-72 | A comment is ignored however it is indented. |
| HackingChecks.NoqaIgnored | tests/hacking/checks.py:70-72 | A line marked `# noqa` is ignored, whatever the padding. |
| HackingChecks.CodeLooked | tests/hacking/checks.py:70-73 | A line whose stripped text is not empty, not a comment and not marked `# noqa` is passed to the check. |
| HackingChecks.ScanFrom | tests/hacking/checks.py:213-253 | A reported index holds a single quote and lies in the scanned range. |
| HackingChecks.ScanQuotes | tests/hacking/checks.py:213-253 | The `while` loop with its `break`, `continue` and index skips reports a single quote exactly when the scan does, and at the same index. |
| HackingChecks.CheckQuotesLoop | tests/hacking/checks.py:213-256 | The loop and the final `yield` produce what the check's reference definition produces. |
| HackingChecks.QuoteReports | tests/hacking/checks.py:255-256 | The check reports at most once, exactly when a single quote is found, as `N350` at that quote. |
| HackingChecks.CheckQuotes | tests/hacking/checks.py:206-256 | The decorated check reports exactly on non-ignored lines where the scan finds a single quote. |
| HackingChecks.NoQuoteNoReport | tests/hacking/checks.py:242-244 | A line without a single quote is never reported. |
| HackingChecks.PlainCodeFirstQuote | tests/hacking/checks.py:239-253 | In code without `"` or `#`, the report is at the first single quote. |
| HackingChecks.CommentEndsScan | tests/hacking/checks.py:239-240 | Nothing after a `#` in code is looked at. |
| HackingChecks.ScanShift | tests/hacking/checks.py:217-253 | The scan only looks forward: a prefix that leaves the scan in the same mode shifts the result and changes nothing else. |
| HackingChecks.QuotedStringSkipped | tests/hacking/checks.py:228-251 | A `"..."` string without `"` or backslash is skipped whole, single quotes included, and the scan resumes after it as if it were absent. |
| HackingChecks.StringBody | tests/hacking/checks.py:228-233 | Inside a string, the scan runs to the closing `"`. |
| HackingExamples.QuoteInCode | tests/hacking/checks.py:242-244 | `x = 'a'` is reported at index 4. |
| HackingExamples.QuoteInString | tests/hacking/checks.py:228-230 | A single quote inside `"..."` is not reported. |
| HackingExamples.QuoteAfterEscape | tests/hacking/checks.py:231-232 | A backslash-escaped `"` does not end the string. |
| HackingExamples.QuoteInComment | tests/hacking/checks.py:239-240 | A single quote in a comment is not reported. |
| HackingExamples.QuoteAfterTriple | tests/hacking/checks.py:234-250 | A `"""` region is skipped, and the quote after it is found. |
| HackingChecks.ParseAssertMockStr | tests/hacking/checks.py:78-85 | The result is absent exactly when `.assert_` does not occur. Otherwise it gives the first occurrence's position, where the whole marker fits in the line, and the text before it. |
| HackingChecks.ParseAssertRoundTrip | tests/hacking/checks.py:78-83 | Round trip: `obj.assert_<suffix>(args)` parses back to its position, its method name `assert_<suffix>` and its object. |
| HackingChecks.NoParenEmptyName | tests/hacking/checks.py:82-83 | With no `(` after a non-initial `.assert_`, the method name is empty. |
| HackingChecks.NoParenAtStart | tests/hacking/checks.py:82-83 | With no `(` after `.assert_` at position 0, the slice end -1 counts from the back, so the name is the line without its first and last characters. |
| HackingChecks.MockReports | tests/hacking/checks.py:97-131 | The check reports at most once. It reports exactly in a checked file, for `.assert_` at a non-zero position with a method outside the allow-list. The report sits at that position with the message for that method and object. |
| HackingChecks.CheckAssertMethodsFromMock | tests/hacking/checks.py:88-131 | The decorated check reports exactly on non-ignored lines where the undecorated check does, so only in files under `./tests` that are not on the ignore list. |
| HackingChecks.MessageNamesMethod | tests/hacking/checks.py:107-131 | The message starts with its error code and then quotes the method name, so both can be read back from it. |
| HackingChecks.ErrorCodes | tests/hacking/checks.py:106-124 | `N302` is used exactly for `assert_called` and `N303` exactly for `assert_called_once`. `N301` covers every other method. |
| HackingChecks.AllowedNeverReported | tests/hacking/checks.py:97-105 | A call of an allow-listed method is never reported, whatever the object and arguments. |
| HackingChecks.AssertCalledReported | tests/hacking/checks.py:101-115 | In a checked file, `obj.assert_called(...)` on a looked-at line is reported at the dot with the `assertTrue(obj.called)` advice. |

## Left out

- `get_notifications` (osprofiler/parsers/ceilometer.py:136-147) is a call into the Ceilometer client. It is not part of this model. Neither is its test, which only checks the call's arguments through a mock.
- Python's node aliasing in `_build_tree` is modelled differently. The same dict objects sit in the map and in the children lists, and the nested JSON comes from that sharing. The model keeps a de-aliased `Forest` and derives the nested view with `TreeBuilder.Expand`.
- `TreeBuilder.Nested`, `TreeBuilder.Expand` and `TreeBuilder.ExpandAll`: their own contracts fix only the spans at the roots. That every node below holds exactly its id's children list, at every depth, is `TreeBuilder.NestedFollows`. The depth bound of `Nested`, the number of records, is never reached when trace ids are distinct, as a map's keys are. A record on a `parent_id` cycle has its parent among the keys, so it is never top-level and no top-level record reaches it. Python leaves it out of the returned list, and so does the model.
- `_build_tree` mutates its input with `setdefault("children", [])`. The model returns a new forest rather than changing the records.
- `Notifications.Msec` works exactly on integer microseconds. Python divides a float by `1000.0`. Float rounding can only move the result for differences above about 2^43 ms (roughly 278 years), and that rounding is not modelled.
- `Timestamp.Parse` follows `strptime` as Python 2.7 implements it, the version the parser names at osprofiler/parsers/ceilometer.py:110-111. The formats' fields take one or two digits, `%d` also a space and one digit, `%f` one to six digits, and the `T` either case. Python 3 also lets `\d` match non-ASCII decimal digits, such as full-width ones, and reads them with `int()`. The model accepts only `0`–`9`.
- `Timestamp.WithFraction` and `Timestamp.WithoutFraction`: their own contracts state only that a match is a valid instant. What they accept is stated by `Timestamp.WithFractionExactly` and `Timestamp.WithoutFractionExactly`. Those lemmas prove both directions: every admitted rendering parses back to its instant, and nothing else parses.
- `Text.IsSpace` is the whitespace `strip()` removes from a Python 2 byte string: space, `\t`, `\n`, `\r`, `\v` and `\f`. A Python 3 string, or a Python 2 unicode string, also loses `\x1c`–`\x1f`, `\x85` and the other Unicode spaces.
- Dictionaries are modelled in insertion order, which Python guarantees from 3.7. Under Python 2.6 and 2.7, the versions the parser names, `result = {}` (osprofiler/parsers/ceilometer.py:53) iterates in hash order. Records would then reach `_build_tree` in hash order, and siblings with equal `started` could come out in a different order. Records with distinct starts come out the same either way.
- Malformed events are not modelled. An event is a list of named string traits. Python raises `KeyError` for an event without `"traits"` (line 58) and for a trait without `"name"` or `"value"` (lines 61 and 95-96). It raises `TypeError` or `AttributeError` when a value is not a string, for example at `name.split` (line 81) or `strptime` (line 72).
- `Notifications.Assemble` and `Notifications.ParseNotifications`: their own contracts state the root's name and start and the error cases. The root's `finished` and its children are stated by `Notifications.AssembleIsTrace` and `Notifications.ParseNotificationsTrace`.
- `HackingChecks.SkipIgnored`: when the wrapped check yields nothing, `next()` raises `StopIteration` inside a generator. Python 3.7 and later turn that into a `RuntimeError`, and older versions end the generator silently. The model yields nothing, as older Python did.
- The other checks in `tests/hacking/checks.py` are not part of this model: the regex-based checks, the `tokenize`-based checks and the `factory` registration.
- Nodes of the tree test carry only `started`. The model fills the other `info` fields with empty defaults, and those defaults play no part in linking or sorting.
- The profiler's notifier, web, command-line and other modules are not part of this model.
