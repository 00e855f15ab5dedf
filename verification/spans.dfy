/** The records the trace reconstructor produces: one span per trace id,
    with its `info` mapping and its link to a parent span. */
module Spans {
  import opened OrderedDict

  /** A span's `info` mapping. `name`, `project`, `service` and `host` come
      from the span's first event; `meta` holds the `meta.*` entries in
      insertion order (starting with `meta.host`); `started` and `finished`
      are whole milliseconds after the earliest event of the batch. */
  datatype Info = Info(name: string, project: string, service: string, host: string,
                       meta: Dict<string>, started: int, finished: int)

  datatype Span = Span(traceId: string, parentId: string, info: Info)

  /** A span with its children, as the nested JSON shows it. */
  datatype Tree = Tree(span: Span, children: seq<Tree>)

  /** The synthetic root's `info`: `{name: "total", started: 0, finished: ...}`. */
  datatype TotalInfo = TotalInfo(name: string, started: int, finished: int)

  /** What `parse_notifications` returns: the synthetic root and the
      top-level spans under it. */
  datatype Trace = Trace(info: TotalInfo, children: seq<Tree>)
}
