/** How the Hunyuan detector streams the arguments of an open call: it parses all the text it has anew
    for every piece, and sends what the snapshot has more than before. */
module HunyuanArgs {
  import opened Strings
  import opened HoldBack
  import opened Dictionaries
  import opened JsonStrings
  import opened ArgTags

  /** For the function being called: which arguments can only be strings, and the JSON text of the
      values of the others. */
  datatype Tools = Tools(strings: string -> bool, otherJson: (string, string) -> string)

  function ValueJson(tools: Tools, key: string, value: string): string {
    if tools.strings(key) then Quoted(value) else tools.otherJson(key, value)
  }

  /** A match of `<arg_key>(.*?)</arg_key>\s*<arg_value>(.*?)</arg_value>` at the front: the two groups
      and the text behind. The key reaches to the first end tag that a whole value follows. */
  function MatchArg(b: string): (r: Option<(string, string, string)>)
    ensures r.Some? ==> |r.value.2| < |b| && Occurs(VALUE_END, b)
  {
    if KEY <= b then
      BehindOccurs(VALUE_END, b, |KEY|);
      MatchBehind("", b[|KEY|..])
    else None
  }

  function MatchBehind(key: string, u: string): (r: Option<(string, string, string)>)
    ensures r.Some? ==> |r.value.2| <= |u| && Occurs(VALUE_END, u)
    decreases |u|
  {
    var k := IndexOf(KEY_END, u);
    if k == -1 then None
    else
      var t := StripLeft(u[k + |KEY_END|..]);
      StripLeftIsEnd(u[k + |KEY_END|..]);
      BehindOccurs(VALUE_END, u, k + |KEY_END|);
      if VALUE <= t && IndexOf(VALUE_END, t[|VALUE|..]) != -1 then
        BehindOccurs(VALUE_END, t, |VALUE|);
        BehindOccurs(VALUE_END, u[k + |KEY_END|..], |u[k + |KEY_END|..]| - |t|);
        var v := IndexOf(VALUE_END, t[|VALUE|..]);
        Some((key + u[..k], t[|VALUE|..][..v], t[|VALUE|..][v..][|VALUE_END|..]))
      else
        BehindOccurs(VALUE_END, u, k + 1);
        MatchBehind(key + u[..k + 1], u[k + 1..])
  }

  lemma BehindOccurs(t: string, w: string, n: nat)
    requires n <= |w|
    ensures Occurs(t, w[n..]) ==> Occurs(t, w)
  {
    if Occurs(t, w[n..]) {
      var i :| OccursAt(t, w[n..], i);
      assert w[n..][i..i + |t|] == w[n + i..n + i + |t|];
      assert OccursAt(t, w, n + i);
    }
  }

  /** The first match in a text. */
  function FirstMatch(b: string): (r: Option<(string, string, string)>)
    ensures r.Some? ==> |r.value.2| < |b| && Occurs(VALUE_END, b)
  {
    if b == "" then None
    else if MatchArg(b).Some? then MatchArg(b)
    else
      BehindOccurs(VALUE_END, b, 1);
      FirstMatch(b[1..])
  }

  /** The groups of `finditer`. */
  function Pairs(b: string): seq<(string, string)>
    decreases |b|
  {
    match FirstMatch(b)
    case None => []
    case Some((key, value, rest)) => [(key, value)] + Pairs(rest)
  }

  /** The text behind the last match. */
  function Tail(b: string): string
    decreases |b|
  {
    match FirstMatch(b)
    case None => b
    case Some((_, _, rest)) => Tail(rest)
  }

  /** The pairs that are new, with their values converted, join the arguments that are complete. */
  function Absorb(tools: Tools, d: Entries<string>, pairs: seq<(string, string)>): Entries<string>
    decreases |pairs|
  {
    if pairs == [] then d
    else
      var key := Strip(pairs[0].0);
      Absorb(tools, if HasKey(d, key) then d else Put(d, key, ValueJson(tools, key, pairs[0].1)), pairs[1..])
  }

  /** A key whose value has begun, if it can only be a string, and the value so far. */
  function Partial(tools: Tools, tail: string): Option<(string, string)> {
    var k := IndexOf(KEY, tail);
    if k == -1 then None
    else
      var t := tail[k..][|KEY|..];
      var e := IndexOf(KEY_END, t);
      if e == -1 then None
      else
        var key, u := Strip(t[..e]), t[e..];
        var v := IndexOf(VALUE, u);
        if v == -1 || !tools.strings(key) then None else Some((key, u[v..][|VALUE|..]))
  }

  /** The part of a value that cannot be the beginning of its end tag. */
  function Safe(value: string): string {
    value[..|value| - ShortestFrom(value, VALUE_END, 1)]
  }

  function PartialText(p: (string, string)): string {
    Quoted(p.0) + ": \"" + Escape(Safe(p.1))
  }

  /** The snapshot but for its closing brace. */
  function OpenSnapshot(d: Entries<string>, partial: Option<(string, string)>): string {
    OpenText(Quoted, d) + if partial.None? then "" else (if d == [] then "" else ", ") + PartialText(partial.value)
  }

  /** The text of a call that is still open, its complete arguments, and how much has been sent. */
  datatype Open = Open(buffer: string, completed: Entries<string>, sent: nat)

  datatype Outcome =
    | Waiting(next: Open, delta: string)
    | Finished(rest: string, completed: Entries<string>, delta: string)

  function From(s: string, i: nat): string {
    if i <= |s| then s[i..] else ""
  }

  /** `_stream_args`. */
  function StreamArgs(tools: Tools, o: Open): Outcome {
    var end := IndexOf(CALL_END, o.buffer);
    if end != -1 then
      var d := Absorb(tools, o.completed, Pairs(o.buffer[..end]));
      Finished(o.buffer[end..][|CALL_END|..], d, From(ObjectText(Quoted, d), o.sent))
    else
      var d := Absorb(tools, o.completed, Pairs(o.buffer));
      var partial := Partial(tools, Tail(o.buffer));
      var snapshot := OpenSnapshot(d, partial);
      if (d == [] && partial.None?) || |snapshot| <= o.sent then Waiting(Open(o.buffer, d, o.sent), "")
      else Waiting(Open(o.buffer, d, |snapshot|), snapshot[o.sent..])
  }

  /** The deltas sent while pieces of text arrive, until the call is over. */
  function Deltas(tools: Tools, o: Open, pieces: seq<string>): string
    decreases |pieces|
  {
    if pieces == [] then ""
    else
      match StreamArgs(tools, o.(buffer := o.buffer + pieces[0]))
      case Waiting(next, delta) => delta + Deltas(tools, next, pieces[1..])
      case Finished(_, _, delta) => delta
  }

  const NOTHING := Open("", [], 0)
}
