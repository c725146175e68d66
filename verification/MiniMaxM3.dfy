/** The MiniMax M3 parameter parser: a stack of frames over the pieces between namespace tokens. */
module MiniMaxM3 {
  import opened Strings
  import opened JsonValues

  const NS := "]<]minimax[>["

  datatype ParseError =
    | UnexpectedClosing(tag: string)
    | MismatchedClosing(expected: string, found: string)
    | NoBracket
    | NotAContainer

  datatype Result<+T> = Ok(value: T) | Err(error: ParseError)

  /** Converting a leaf's text to the type its schema names. */
  type Converter = (string, Json) -> Json

  function LowerChar(c: char): char {
    if 'A' <= c <= 'Z' then c - 'A' + 'a' else c
  }

  function Lower(s: string): string {
    seq(|s|, i requires 0 <= i < |s| => LowerChar(s[i]))
  }

  function Get(schema: Json, key: string): Json {
    if schema.Obj? && key in schema.fields then schema.fields[key] else Null
  }

  function OrNull(schema: Json): Json {
    if schema.Obj? then schema else Null
  }

  /** The names in a schema's `type`, in lower case. */
  function Types(schema: Json): set<string> {
    match Get(schema, "type")
    case Str(s) => {Lower(s)}
    case Arr(items) => set i | 0 <= i < |items| && items[i].Str? :: Lower(items[i].s)
    case _ => {}
  }

  const SCALARS := {"string", "str", "integer", "int", "number", "float", "boolean", "bool", "null"}

  predicate IsScalarSchema(schema: Json) {
    Types(schema) !! {"object", "array"} && !(Types(schema) !! SCALARS)
  }

  predicate IsArraySchema(schema: Json) {
    "array" in Types(schema)
  }

  /** The properties a schema declares, or the ones its branches do, the first of a name winning. */
  function SchemaProperties(schema: Json): map<string, Json>
    decreases schema
  {
    if !schema.Obj? then map[]
    else if Get(schema, "properties").Obj? then schema.fields["properties"].fields
    else
      var any := if Get(schema, "anyOf").Arr? then Merged(map[], schema.fields["anyOf"].items) else map[];
      var one := if Get(schema, "oneOf").Arr? then Merged(any, schema.fields["oneOf"].items) else any;
      if Get(schema, "allOf").Arr? then Merged(one, schema.fields["allOf"].items) else one
  }

  function Merged(merged: map<string, Json>, branches: seq<Json>): map<string, Json>
    decreases branches
  {
    if branches == [] then merged else Merged(SchemaProperties(branches[0]) + merged, branches[1..])
  }

  /** The schema of the item at a position of an array. */
  function ItemSchema(schema: Json, index: nat): Json {
    var prefix := Get(schema, "prefixItems");
    if prefix.Arr? && index < |prefix.items| then OrNull(prefix.items[index])
    else if Get(schema, "additionalItems").Obj? then Get(schema, "additionalItems")
    else if Get(schema, "items").Obj? then Get(schema, "items")
    else if prefix.Arr? && prefix.items != [] then OrNull(prefix.items[|prefix.items| - 1])
    else Null
  }

  /** The schema of a named child. */
  function FieldSchema(schema: Json, tag: string): Json {
    if !schema.Obj? then Null
    else if tag in SchemaProperties(schema) then OrNull(SchemaProperties(schema)[tag])
    else OrNull(Get(schema, "additionalProperties"))
  }

  /** The schema of a child of a value that is being built. */
  function ChildSchema(schema: Json, tag: string, value: Json): Json {
    if IsArraySchema(schema) && tag == "item" then ItemSchema(schema, if value.Arr? then |value.items| else 0)
    else FieldSchema(schema, tag)
  }

  function AssignChild(parent: Json, tag: string, child: Json): Result<Json> {
    match parent
    case Arr(items) => Ok(Arr(items + [child]))
    case Obj(fields) =>
      if tag !in fields then Ok(Obj(fields[tag := child]))
      else if fields[tag].Arr? then Ok(Obj(fields[tag := Arr(fields[tag].items + [child])]))
      else Ok(Obj(fields[tag := Arr([fields[tag], child])]))
    case _ => Err(NotAContainer)
  }

  /** The value an element starts with: its text, or an empty container to put its children in. */
  function StartValue(convert: Converter, text: string, schema: Json): Json {
    if text != "" || IsScalarSchema(schema) then convert(text, schema)
    else if IsArraySchema(schema) then Arr([])
    else Obj(map[])
  }

  datatype Frame = Frame(tag: string, schema: Json, value: Json)

  /** What a piece of the text says. */
  datatype Event = Open(tag: string, text: string) | Close(tag: string)

  /** `s.split(NS)`. */
  function Split(s: string): (pieces: seq<string>)
    ensures pieces != []
    decreases |s|
  {
    var i := IndexOf(NS, s);
    if i == -1 then [s] else [s[..i]] + Split(s[i + |NS|..])
  }

  lemma BracketIsLater(chunk: string)
    requires "<" <= chunk
    ensures IndexOf(">", chunk) != 0
  {
    assert chunk[..1] == "<";
  }

  /** A piece as an event; nothing where the parser passes over it. */
  function Read(piece: string): Result<Option<Event>> {
    var chunk := Strip(piece);
    if "</" <= chunk then
      var gt := IndexOf(">", chunk[2..]);
      Ok(Some(Close(Strip(if gt != -1 then chunk[2..2 + gt] else chunk[2..]))))
    else if "<" <= chunk then
      var gt := IndexOf(">", chunk);
      BracketIsLater(chunk);
      if gt == -1 then Err(NoBracket) else Ok(Some(Open(Strip(chunk[1..gt]), chunk[gt + 1..])))
    else Ok(None)
  }

  function Push(convert: Converter, stack: seq<Frame>, tag: string, text: string): (stack': seq<Frame>)
    requires stack != []
    ensures stack' != []
  {
    var parent := stack[|stack| - 1];
    var schema := ChildSchema(parent.schema, tag, parent.value);
    stack + [Frame(tag, schema, StartValue(convert, text, schema))]
  }

  function Pop(stack: seq<Frame>, tag: string): (r: Result<seq<Frame>>)
    requires stack != []
    ensures r.Ok? ==> r.value != []
  {
    var n := |stack|;
    if n == 1 then Err(UnexpectedClosing(tag))
    else if stack[n - 1].tag != tag then Err(MismatchedClosing(stack[n - 1].tag, tag))
    else
      match AssignChild(stack[n - 2].value, stack[n - 1].tag, stack[n - 1].value)
      case Err(e) => Err(e)
      case Ok(v) => Ok(stack[..n - 2] + [stack[n - 2].(value := v)])
  }

  function Act(convert: Converter, stack: seq<Frame>, e: Event): (r: Result<seq<Frame>>)
    requires stack != []
    ensures r.Ok? ==> r.value != []
  {
    match e
    case Open(tag, text) => Ok(Push(convert, stack, tag, text))
    case Close(tag) => Pop(stack, tag)
  }

  function RunEvents(convert: Converter, stack: seq<Frame>, events: seq<Event>): (r: Result<seq<Frame>>)
    requires stack != []
    ensures r.Ok? ==> r.value != []
    decreases |events|
  {
    if events == [] then Ok(stack)
    else
      match Act(convert, stack, events[0])
      case Err(e) => Err(e)
      case Ok(stack') => RunEvents(convert, stack', events[1..])
  }

  function Step(convert: Converter, stack: seq<Frame>, piece: string): (r: Result<seq<Frame>>)
    requires stack != []
    ensures r.Ok? ==> r.value != []
  {
    match Read(piece)
    case Err(e) => Err(e)
    case Ok(None) => Ok(stack)
    case Ok(Some(e)) => Act(convert, stack, e)
  }

  function RunPieces(convert: Converter, stack: seq<Frame>, pieces: seq<string>): (r: Result<seq<Frame>>)
    requires stack != []
    ensures r.Ok? ==> r.value != []
    decreases |pieces|
  {
    if pieces == [] then Ok(stack)
    else
      match Step(convert, stack, pieces[0])
      case Err(e) => Err(e)
      case Ok(stack') => RunPieces(convert, stack', pieces[1..])
  }

  /** Whether the first piece that is not blank opens an item. */
  predicate StartsWithItem(pieces: seq<string>)
    decreases |pieces|
  {
    pieces != [] && if Strip(pieces[0]) == "" then StartsWithItem(pieces[1..]) else "<item>" <= Strip(pieces[0])
  }

  function Root(schema: Json, pieces: seq<string>): Frame {
    Frame("", schema, if IsArraySchema(schema) && StartsWithItem(pieces) then Arr([]) else Obj(map[]))
  }

  method BodyStartsWithItem(body: string) returns (r: bool)
    ensures r == StartsWithItem(Split(body))
  {
    var pieces := Split(body);
    for k := 0 to |pieces|
      invariant StartsWithItem(pieces[k..]) == StartsWithItem(pieces)
    {
      var chunk := Strip(pieces[k]);
      if chunk != "" {
        return "<item>" <= chunk;
      }
    }
    return false;
  }

  lemma RunNothing(convert: Converter, stack: seq<Frame>)
    requires stack != []
    ensures RunPieces(convert, stack, []) == Ok(stack)
  {
  }

  lemma RunStep(convert: Converter, stack: seq<Frame>, pieces: seq<string>, k: nat)
    requires stack != [] && k < |pieces|
    ensures RunPieces(convert, stack, pieces[k..]) ==
              match Step(convert, stack, pieces[k])
              case Err(e) => Err(e)
              case Ok(stack') => RunPieces(convert, stack', pieces[k + 1..])
  {
    assert pieces[k..][0] == pieces[k] && pieces[k..][1..] == pieces[k + 1..];
  }

  /** What the machine leaves at the bottom of its stack. */
  function Parse(convert: Converter, body: string, schema: Json): Result<Json> {
    match RunPieces(convert, [Root(schema, Split(body))], Split(body))
    case Ok(stack) => Ok(stack[0].value)
    case Err(e) => Err(e)
  }

  method ParseParameter(convert: Converter, body: string, schema: Json) returns (r: Result<Json>)
    ensures r == Parse(convert, body, schema)
  {
    hide RunPieces, Strip, Split, IndexOf, StartsWithItem, ChildSchema, AssignChild, IsArraySchema, IsScalarSchema;
    var startsWithItem := BodyStartsWithItem(body);
    var root := if IsArraySchema(schema) && startsWithItem then Arr([]) else Obj(map[]);
    var stack := [Frame("", schema, root)];
    var pieces := Split(body);
    for k := 0 to |pieces|
      invariant stack != []
      invariant RunPieces(convert, stack, pieces[k..]) == RunPieces(convert, [Root(schema, pieces)], pieces)
    {
      RunStep(convert, stack, pieces, k);
      var chunk := Strip(pieces[k]);
      if chunk == "" {
        continue;
      }
      if "</" <= chunk {
        var gt := IndexOf(">", chunk[2..]);
        var tag := if gt != -1 then Strip(chunk[2..2 + gt]) else Strip(chunk[2..]);
        if |stack| == 1 {
          return Err(UnexpectedClosing(tag));
        }
        var frame := stack[|stack| - 1];
        if frame.tag != tag {
          return Err(MismatchedClosing(frame.tag, tag));
        }
        ghost var below := stack[..|stack| - 2];
        stack := stack[..|stack| - 1];
        var parent := stack[|stack| - 1];
        assert stack[..|stack| - 1] == below;
        var grown := AssignChild(parent.value, frame.tag, frame.value);
        if grown.Err? {
          return Err(grown.error);
        }
        stack := stack[..|stack| - 1] + [parent.(value := grown.value)];
        continue;
      }
      if "<" <= chunk {
        var gt := IndexOf(">", chunk);
        if gt == -1 {
          return Err(NoBracket);
        }
        BracketIsLater(chunk);
        var tag := Strip(chunk[1..gt]);
        var text := chunk[gt + 1..];
        var parent := stack[|stack| - 1];
        var childSchema := ChildSchema(parent.schema, tag, parent.value);
        var value;
        if text != "" || IsScalarSchema(childSchema) {
          value := convert(text, childSchema);
        } else {
          value := if IsArraySchema(childSchema) then Arr([]) else Obj(map[]);
        }
        stack := stack + [Frame(tag, childSchema, value)];
      }
    }
    RunNothing(convert, stack);
    assert pieces[|pieces|..] == [];
    return Ok(stack[0].value);
  }
}
