/** The tags that several models write their calls with, and arguments written with them. */
module ArgTags {
  import opened Strings

  const CALL := "<tool_call>"
  const CALL_END := "</tool_call>"
  const KEY := "<arg_key>"
  const KEY_END := "</arg_key>"
  const VALUE := "<arg_value>"
  const VALUE_END := "</arg_value>"

  lemma TagsInert()
    ensures OpensOnce(KEY) && OpensOnce(KEY_END) && OpensOnce(VALUE) && OpensOnce(VALUE_END)
    ensures OpensOnce(CALL) && OpensOnce(CALL_END)
  {
  }

  /** An argument as written: its key, the blanks before its value, the text in the value's tags, and
      what stands after it. */
  datatype Arg = Arg(key: string, gap: string, raw: string, after: string)

  function ArgText(a: Arg): string {
    KEY + a.key + (KEY_END + (a.gap + (VALUE + a.raw + (VALUE_END + a.after))))
  }

  function ArgsText(args: seq<Arg>): string {
    if args == [] then "" else ArgText(args[0]) + ArgsText(args[1..])
  }

  ghost predicate ArgRight(a: Arg) {
    '<' !in a.key && (forall c :: c in a.gap ==> IsSpace(c)) && !Occurs(VALUE_END, a.raw) && '<' !in a.after
  }

  /** The keys and texts of arguments, in order. */
  function PairsOf(args: seq<Arg>): seq<(string, string)> {
    if args == [] then [] else [(args[0].key, args[0].raw)] + PairsOf(args[1..])
  }

  /** `re.findall` of `<tool_call>(.*?)</tool_call>`. */
  function Bodies(text: string): seq<string>
    decreases |text|
  {
    var start := IndexOf(CALL, text);
    if start == -1 then []
    else
      var tail := text[start..][|CALL|..];
      var end := IndexOf(CALL_END, tail);
      if end == -1 then [] else [tail[..end]] + Bodies(tail[end..][|CALL_END|..])
  }

  lemma NoBodies(text: string)
    requires IndexOf(CALL, text) == -1
    ensures Bodies(text) == []
  {
  }

  /** A word in a text, and what stands in front of it and behind. */
  lemma CutAround(t: string, w: string, i: nat)
    requires OccursAt(t, w, i)
    ensures w == w[..i] + (t + w[i + |t|..|w|]) && w[i + |t|..|w|] == w[i + |t|..]
  {
    assert w == w[..i] + (w[i..i + |t|] + w[i + |t|..]);
  }

  lemma EndsMove(seen: string, rest: string, end: string, trail: string, more: string)
    ensures rest + (end + trail) + more == rest + (end + (trail + more))
    ensures seen + (end + rest) + (end + (trail + more)) == seen + (end + (rest + (end + (trail + more))))
  {
  }

  lemma OneBody(before: string, body: string, more: string)
    requires IndexOf(CALL, before + (CALL + (body + (CALL_END + more)))) == |before|
    requires IndexOf(CALL_END, body + (CALL_END + more)) == |body|
    ensures Bodies(before + (CALL + (body + (CALL_END + more)))) == [body] + Bodies(more)
  {
    hide IndexOf;
    var tail := body + (CALL_END + more);
    Cut(before, CALL + tail);
    Cut(CALL, tail);
    Cut(body, CALL_END + more);
    Cut(CALL_END, more);
  }
}
