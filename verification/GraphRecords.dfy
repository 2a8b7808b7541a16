/** Raw graph documents: access to their record collections, and the host facilities the
    comparison consults, passed in as functions. */
module GraphRecords {
  import opened Json
  import opened Wrappers

  type Record = map<string, Value>

  /** `number` reads a number's text; `encode` is the canonical JSON text of a value; `text` is its
      string form used as an identity; `portable` makes a source path corpus-relative and `plain`
      only normalises it; `absolute` recognises absolute paths; `slugFrom(path, id)` tells whether
      an identity carries the slug of a path; `family` is the runtime family of a source file. */
  datatype Host = Host(
    number: Reading,
    encode: Value -> string,
    text: Value -> string,
    portable: string -> string,
    plain: string -> string,
    absolute: string -> bool,
    slugFrom: (string, string) -> bool,
    family: string -> Option<string>)

  function Exactly(host: Host): Rule { Rule(host.number, false) }

  function Sharpening(host: Host): Rule { Rule(host.number, true) }

  function Get(r: Record, field: string): Value {
    if field in r then r[field] else Null
  }

  /** The first alias present, even when its value is null; null when none is. */
  function FirstAlias(r: Record, aliases: seq<string>): Value
  {
    if aliases == [] then Null
    else if aliases[0] in r then r[aliases[0]]
    else FirstAlias(r, aliases[1..])
  }

  function RawRecords(graph: Record, key: string): seq<Value> {
    if key in graph && graph[key].Arr? then graph[key].items else []
  }

  function RawEdges(graph: Record): seq<Value> {
    if "links" in graph then RawRecords(graph, "links") else RawRecords(graph, "edges")
  }

  const SOURCE_ALIASES := ["_src", "source", "from"]
  const TARGET_ALIASES := ["_tgt", "target", "to"]
  const MEMBER_ALIASES := ["nodes", "members", "node_ids"]

  predicate ValidIdentity(v: Value) {
    v.Str? && v.text != ""
  }
}
