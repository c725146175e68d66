/** The character transducer that turns XML arguments into a JSON object as they arrive. */
module GlmTransducer {
  import opened Strings
  import opened ArgTags
  import opened Streaming
  import Dictionaries

  datatype Stage = Init | Between | InKey | WaitingValue | InValue

  /** A string value is quoted and escaped; any other is copied. */
  datatype Kind = Quoted | Copied

  /** JSON escaping of one character, and the kind of a key's value. */
  datatype Env = Env(escape: char -> string, kindOf: string -> Kind)

  datatype State = State(stage: Stage, key: string, tag: string, isFirst: bool, started: bool, kind: Kind)

  const FRESH := State(Init, "", "", true, false, Quoted)

  function Escape(env: Env, s: string): string {
    if s == "" then "" else Escape(env, s[..|s| - 1]) + env.escape(s[|s| - 1])
  }

  /** `json.dumps` of a string. */
  function Dumps(env: Env, s: string): string {
    "\"" + Escape(env, s) + "\""
  }

  datatype Output = Output(state: State, json: string)

  function Body(env: Env, kind: Kind, s: string): string {
    if kind == Quoted then Escape(env, s) else s
  }

  function Quote(kind: Kind): string {
    if kind == Quoted then "\"" else ""
  }

  /** A value as it appears in the JSON object. */
  function ValueText(env: Env, kind: Kind, s: string): string {
    Quote(kind) + Body(env, kind, s) + Quote(kind)
  }

  predicate EndsWith(s: string, t: string) {
    |t| <= |s| && s[|s| - |t|..] == t
  }

  /** One character: it joins the tag buffer, which a whole tag or, in a value, a mismatch clears. */
  function Put(env: Env, s: State, c: char): Output {
    var tag := s.tag + [c];
    match s.stage
    case Init => Open(s, tag)
    case Between => Open(s, tag)
    case InKey =>
      if EndsWith(tag, KEY_END) then
        var key := Strip(tag[..|tag| - |KEY_END|]);
        Output(s.(stage := WaitingValue, key := key, tag := ""), Dumps(env, key) + ": ")
      else Output(s.(tag := tag), "")
    case WaitingValue =>
      if EndsWith(tag, VALUE) then
        Output(s.(stage := InValue, tag := "", started := false, kind := env.kindOf(s.key)), "")
      else Output(s.(tag := tag), "")
    case InValue =>
      if EndsWith(tag, VALUE_END) then
        var last := tag[..|tag| - |VALUE_END|];
        Output(s.(stage := Between, tag := "", started := false),
               if s.started then Body(env, s.kind, last) + Quote(s.kind) else ValueText(env, s.kind, last))
      else if tag <= VALUE_END then Output(s.(tag := tag), "")
      else Output(s.(tag := "", started := true), (if s.started then "" else Quote(s.kind)) + Body(env, s.kind, tag))
  }

  function Open(s: State, tag: string): Output {
    if EndsWith(tag, KEY) then
      Output(s.(stage := InKey, key := "", tag := "", isFirst := false), if s.isFirst then "{" else ", ")
    else Output(s.(tag := tag), "")
  }

  /** A text, character by character. */
  function PutAll(env: Env, s: State, raw: string): Output {
    if raw == "" then Output(s, "")
    else
      var o := PutAll(env, s, raw[..|raw| - 1]);
      var p := Put(env, o.state, raw[|raw| - 1]);
      Output(p.state, o.json + p.json)
  }

  /** What the finalizer adds at the end of the call. */
  function Finish(s: State): string {
    if s.isFirst then "{}" else "}"
  }

  lemma {:induction false} PutAllConcat(env: Env, s: State, a: string, b: string)
    ensures var o := PutAll(env, s, a);
            var p := PutAll(env, o.state, b);
            PutAll(env, s, a + b) == Output(p.state, o.json + p.json)
  {
    hide Put;
    if b == "" {
      assert a + b == a;
    } else {
      assert (a + b)[..|a + b| - 1] == a + b[..|b| - 1];
      PutAllConcat(env, s, a, b[..|b| - 1]);
    }
  }

  /** The pieces of a text one after the other. */
  function PutPieces(env: Env, s: State, pieces: seq<string>): Output
    decreases |pieces|
  {
    if pieces == [] then Output(s, "")
    else
      var o := PutAll(env, s, pieces[0]);
      var more := PutPieces(env, o.state, pieces[1..]);
      Output(more.state, o.json + more.json)
  }

  /** However a text is cut, the JSON and the state are the same. */
  lemma {:induction false} PiecesDoNotMatter(env: Env, s: State, pieces: seq<string>)
    ensures PutPieces(env, s, pieces) == PutAll(env, s, Concat(pieces))
    decreases |pieces|
  {
    if pieces != [] {
      var o := PutAll(env, s, pieces[0]);
      PiecesDoNotMatter(env, o.state, pieces[1..]);
      PutAllConcat(env, s, pieces[0], Concat(pieces[1..]));
    }
  }

  /** The tag buffer in a value is a proper prefix of the closing tag. */
  predicate TagRight(s: State) {
    s.stage == InValue ==> s.tag <= VALUE_END && |s.tag| < |VALUE_END|
  }

  /** On every input the tag buffer stays a proper prefix of the closing tag throughout a value. */
  lemma {:induction false} TagStaysRight(env: Env, s: State, raw: string)
    requires TagRight(s)
    ensures TagRight(PutAll(env, s, raw).state)
  {
    hide Put, TagRight;
    if raw != "" {
      var before := raw[..|raw| - 1];
      TagStaysRight(env, s, before);
      PutKeepsTag(env, PutAll(env, s, before).state, raw[|raw| - 1]);
    }
  }

  lemma PutKeepsTag(env: Env, s: State, c: char)
    requires TagRight(s)
    ensures TagRight(Put(env, s, c).state)
  {
    hide Body, ValueText, Quote, Strip, Dumps, EndsWith;
    WholeEnds(s.tag + [c]);
  }

  lemma WholeEnds(tag: string)
    ensures tag <= VALUE_END && !EndsWith(tag, VALUE_END) ==> |tag| < |VALUE_END|
  {
    assert |tag| == |VALUE_END| && tag <= VALUE_END ==> tag[|tag| - |VALUE_END|..] == VALUE_END;
  }

  /** What the tag buffer holds after a value's text: the match in progress, which a mismatch drops whole. */
  function Residue(v: string): (r: string)
    ensures r <= VALUE_END && EndsWith(v, r)
  {
    if v == "" then ""
    else
      var r := Residue(v[..|v| - 1]) + [v[|v| - 1]];
      assert v == v[..|v| - 1] + [v[|v| - 1]];
      if r <= VALUE_END then r else ""
  }

  /** The state after a value's text that has not closed it. */
  function Inside(s: State, v: string): State {
    s.(tag := Residue(v), started := |Residue(v)| < |v|)
  }

  function Sent(env: Env, kind: Kind, v: string): string {
    var k := |v| - |Residue(v)|;
    if k == 0 then "" else Quote(kind) + Body(env, kind, v[..k])
  }

  lemma {:induction false} EscapeConcat(env: Env, a: string, b: string)
    ensures Escape(env, a + b) == Escape(env, a) + Escape(env, b)
  {
    if b == "" {
      assert a + b == a;
    } else {
      assert (a + b)[..|a + b| - 1] == a + b[..|b| - 1];
      EscapeConcat(env, a, b[..|b| - 1]);
    }
  }

  lemma BodyConcat(env: Env, kind: Kind, a: string, b: string)
    ensures Body(env, kind, a + b) == Body(env, kind, a) + Body(env, kind, b)
  {
    EscapeConcat(env, a, b);
  }

  predicate Entering(s: State) {
    s.stage == InValue && s.tag == "" && !s.started
  }

  lemma ResidueStep(w: string, c: char)
    ensures var tag := Residue(w) + [c]; Residue(w + [c]) == if tag <= VALUE_END then tag else ""
  {
    assert (w + [c])[..|w|] == w;
  }

  lemma PutInValue(env: Env, s: State, c: char)
    requires s.stage == InValue && s.tag <= VALUE_END && s.tag != VALUE_END && s.tag + [c] != VALUE_END
    ensures var tag := s.tag + [c];
            Put(env, s, c) ==
              if tag <= VALUE_END then Output(s.(tag := tag), "")
              else Output(s.(tag := "", started := true),
                          (if s.started then "" else Quote(s.kind)) + Body(env, s.kind, tag))
  {
  }

  /** A mismatch sends the match in progress and the character that ended it. */
  lemma SentMore(env: Env, kind: Kind, w: string, c: char)
    requires Residue(w + [c]) == ""
    ensures var tag := Residue(w) + [c];
            Sent(env, kind, w) + ((if |Residue(w)| < |w| then "" else Quote(kind)) + Body(env, kind, tag))
            == Sent(env, kind, w + [c])
  {
    hide Body, Residue, Quote, Sent;
    var before := w[..|w| - |Residue(w)|];
    var tag := Residue(w) + [c];
    SentLonger(env, kind, w, c);
    SentUpTo(env, kind, w);
    JoinSent(env, kind, Sent(env, kind, w), before, tag);
  }

  lemma SentLonger(env: Env, kind: Kind, w: string, c: char)
    requires Residue(w + [c]) == ""
    ensures Sent(env, kind, w + [c])
         == Quote(kind) + Body(env, kind, w[..|w| - |Residue(w)|] + (Residue(w) + [c]))
  {
    hide Body, Residue, Quote, Sent;
    SplitAtResidue(w, c);
    SentUpTo(env, kind, w + [c]);
  }

  lemma JoinSent(env: Env, kind: Kind, sent: string, before: string, tag: string)
    requires sent == if before == "" then "" else Quote(kind) + Body(env, kind, before)
    ensures sent + ((if before == "" then Quote(kind) else "") + Body(env, kind, tag))
         == Quote(kind) + Body(env, kind, before + tag)
  {
    hide Body, Quote;
    BodyConcat(env, kind, before, tag);
    var q, x, y := Quote(kind), Body(env, kind, before), Body(env, kind, tag);
    if before == "" {
      assert before + tag == tag;
      assert "" + (q + y) == q + y;
    } else {
      assert "" + y == y;
      Assoc(q, x, y);
    }
  }

  lemma SentUpTo(env: Env, kind: Kind, w: string)
    ensures var before := w[..|w| - |Residue(w)|];
            Sent(env, kind, w) == if before == "" then "" else Quote(kind) + Body(env, kind, before)
  {
    hide Residue, Body, Quote;
  }

  lemma SplitAtResidue(w: string, c: char)
    requires Residue(w + [c]) == ""
    ensures w + [c] == w[..|w| - |Residue(w)|] + (Residue(w) + [c])
    ensures (w + [c])[..|w + [c]| - |Residue(w + [c])|] == w[..|w| - |Residue(w)|] + (Residue(w) + [c])
  {
    hide Residue;
    LastOn(w, |w| - |Residue(w)|, c);
  }

  lemma LastOn(w: string, n: nat, c: char)
    requires n <= |w|
    ensures w + [c] == w[..n] + (w[n..] + [c]) && (w + [c])[..|w + [c]|] == w + [c]
  {
  }

  lemma SentSame(env: Env, kind: Kind, w: string, c: char)
    requires Residue(w + [c]) == Residue(w) + [c]
    ensures Sent(env, kind, w) == Sent(env, kind, w + [c])
  {
    assert (w + [c])[..|w| - |Residue(w)|] == w[..|w| - |Residue(w)|];
  }

  /** One more character of a value: it extends the match in progress, or sends it on. */
  lemma InValueStep(env: Env, s: State, w: string, c: char)
    requires Entering(s) && Residue(w) != VALUE_END && Residue(w + [c]) != VALUE_END
    ensures var o := Put(env, Inside(s, w), c);
            o.state == Inside(s, w + [c]) && Sent(env, s.kind, w) + o.json == Sent(env, s.kind, w + [c])
  {
    hide Put, Sent, Residue, Body;
    ResidueStep(w, c);
    PutInValue(env, Inside(s, w), c);
    if Residue(w) + [c] <= VALUE_END {
      SentSame(env, s.kind, w, c);
    } else {
      SentMore(env, s.kind, w, c);
    }
  }

  lemma OccursLonger(t: string, w: string, c: char)
    requires !Occurs(t, w + [c])
    ensures !Occurs(t, w)
  {
    if Occurs(t, w) {
      IndexOfExtends(t, w, [c]);
    }
  }

  lemma ResidueOccurs(v: string)
    requires !Occurs(VALUE_END, v)
    ensures Residue(v) != VALUE_END
  {
    if Residue(v) == VALUE_END {
      assert OccursAt(VALUE_END, v, |v| - |VALUE_END|);
    }
  }

  /** A value's text without the closing tag passes through, but for the match in progress. */
  lemma {:induction false} InValuePassesThrough(env: Env, s: State, v: string)
    requires Entering(s) && !Occurs(VALUE_END, v)
    ensures PutAll(env, s, v) == Output(Inside(s, v), Sent(env, s.kind, v))
  {
    hide Put, Sent, Occurs;
    if v == "" {
      NothingSent(env, s.kind);
    } else {
      var w, c := v[..|v| - 1], v[|v| - 1];
      assert v == w + [c];
      OccursLonger(VALUE_END, w, c);
      ResidueOccurs(w);
      ResidueOccurs(v);
      InValuePassesThrough(env, s, w);
      InValueStep(env, s, w, c);
    }
  }

  lemma NothingSent(env: Env, kind: Kind)
    ensures Sent(env, kind, "") == ""
  {
  }

  lemma {:induction false} ClosePrefix(env: Env, s: State, t: string)
    requires s.stage == InValue && s.tag == "" && t <= VALUE_END && t != VALUE_END
    ensures PutAll(env, s, t) == Output(s.(tag := t), "")
  {
    hide Put;
    if t != "" {
      var w, c := t[..|t| - 1], t[|t| - 1];
      assert t == w + [c];
      ClosePrefix(env, s, w);
      PutInValue(env, s.(tag := w), c);
    }
  }

  lemma CloseFromEmpty(env: Env, s: State)
    requires s.stage == InValue && s.tag == ""
    ensures PutAll(env, s, VALUE_END)
         == Output(s.(stage := Between, tag := "", started := false),
                   if s.started then Quote(s.kind) else Quote(s.kind) + Quote(s.kind))
  {
    var n := |VALUE_END| - 1;
    ClosePrefix(env, s, VALUE_END[..n]);
    assert VALUE_END[..n] + [VALUE_END[n]] == VALUE_END;
    var o := Put(env, s.(tag := VALUE_END[..n]), VALUE_END[n]);
    assert VALUE_END[..|VALUE_END| - |VALUE_END|] == "";
  }

  /** A match in progress swallows the closing tag's `<`, after which the tag matches nothing. */
  lemma {:induction false} CloseMissed(env: Env, s: State, i: nat)
    requires s.stage == InValue && s.tag != "" && s.tag <= VALUE_END && |s.tag| < |VALUE_END| && i <= |VALUE_END|
    ensures PutAll(env, s, VALUE_END[..i]).state.stage == InValue
    ensures i > 0 ==> PutAll(env, s, VALUE_END[..i]).state.tag == ""
  {
    hide Put, PutAll;
    if i == 0 {
      assert VALUE_END[..0] == "";
      PutNothing(env, s);
    } else {
      CloseMissed(env, s, i - 1);
      var t, c := PutAll(env, s, VALUE_END[..i - 1]).state, VALUE_END[i - 1];
      assert VALUE_END[..i] == VALUE_END[..i - 1] + [c];
      PutLast(env, s, VALUE_END[..i - 1], c);
      if i == 1 {
        assert VALUE_END[..0] == "";
        PutNothing(env, s);
        NoSecondAngle(s.tag);
      } else {
        assert (t.tag + [c])[0] == c != VALUE_END[0];
      }
      Mismatch(env, t, c);
    }
  }

  lemma NoSecondAngle(tag: string)
    requires tag != "" && tag <= VALUE_END && |tag| < |VALUE_END|
    ensures !(tag + ['<'] <= VALUE_END)
  {
    assert (tag + ['<'])[|tag|] == '<' && VALUE_END[|tag|] != '<';
  }

  lemma PutLast(env: Env, s: State, raw: string, c: char)
    ensures PutAll(env, s, raw + [c]).state == Put(env, PutAll(env, s, raw).state, c).state
  {
    hide Put;
    assert (raw + [c])[..|raw|] == raw;
  }

  lemma Mismatch(env: Env, t: State, c: char)
    requires t.stage == InValue && !(t.tag + [c] <= VALUE_END) && |t.tag| < |VALUE_END|
    ensures var o := Put(env, t, c); o.state.stage == InValue && o.state.tag == ""
  {
    hide Body, Quote;
    assert EndsWith(t.tag + [c], VALUE_END) ==> t.tag + [c] == VALUE_END;
  }

  lemma SentWhole(env: Env, kind: Kind, v: string)
    requires Residue(v) == ""
    ensures Sent(env, kind, v) + (if v != "" then Quote(kind) else Quote(kind) + Quote(kind)) == ValueText(env, kind, v)
  {
    hide Residue, Body, Quote;
    assert v[..|v|] == v;
    EmptyBody(env, kind);
    assert Quote(kind) + "" == Quote(kind);
  }

  lemma EmptyBody(env: Env, kind: Kind)
    ensures Body(env, kind, "") == ""
  {
  }

  /** The closing tag is seen exactly when the value's text ends in no match in progress. */
  lemma CloseIsSeenIffNoResidue(env: Env, s: State, v: string)
    requires Entering(s) && !Occurs(VALUE_END, v)
    ensures var o := PutAll(env, s, v + VALUE_END);
            (o.state.stage == Between && o.json == ValueText(env, s.kind, v)) <==> Residue(v) == ""
    ensures Residue(v) == "" ==>
              PutAll(env, s, v + VALUE_END).state == s.(stage := Between, tag := "", started := false)
    ensures Residue(v) != "" ==> PutAll(env, s, v + VALUE_END).state.stage == InValue
  {
    hide Put, Sent, Occurs;
    InValuePassesThrough(env, s, v);
    PutAllConcat(env, s, v, VALUE_END);
    if Residue(v) == "" {
      CloseFromEmpty(env, Inside(s, v));
      SentWhole(env, s.kind, v);
    } else {
      ResidueOccurs(v);
      CloseMissed(env, Inside(s, v), |VALUE_END|);
      assert VALUE_END[..|VALUE_END|] == VALUE_END;
    }
  }

  /** An argument on the wire: free text, the key in its tags, free text, the value in its tags. */
  datatype Argument = Argument(before: string, key: string, between: string, value: string)

  function Render(a: Argument): string {
    a.before + KEY + (a.key + KEY_END) + (a.between + VALUE) + (a.value + VALUE_END)
  }

  function RenderAll(arguments: seq<Argument>): string {
    if arguments == [] then "" else RenderAll(arguments[..|arguments| - 1]) + Render(arguments[|arguments| - 1])
  }

  /** No text holds the tag that ends it, and the value leaves no match of its closing tag in progress. */
  predicate Readable(a: Argument) {
    && IndexOf(KEY, a.before) == -1 && IndexOf(KEY_END, a.key) == -1 && IndexOf(VALUE, a.between) == -1
    && IndexOf(VALUE_END, a.value) == -1 && Residue(a.value) == ""
  }

  function PairText(env: Env, a: Argument): string {
    Dumps(env, Strip(a.key)) + ": " + ValueText(env, env.kindOf(Strip(a.key)), a.value)
  }

  /** The object so far, without its closing brace. */
  function OpenObject(env: Env, arguments: seq<Argument>): string {
    if arguments == [] then ""
    else
      var n := |arguments| - 1;
      OpenObject(env, arguments[..n]) + (if n == 0 then "{" else ", ") + PairText(env, arguments[n])
  }

  /** `json.dumps` of the arguments: `{"k": v, "k": v}`. */
  function Object(env: Env, arguments: seq<Argument>): string {
    if arguments == [] then "{}" else OpenObject(env, arguments) + "}"
  }

  /** The tag a state outside values waits for. */
  function Awaited(stage: Stage): string {
    match stage
    case InKey => KEY_END
    case WaitingValue => VALUE
    case _ => KEY
  }

  predicate NoEarlyEnd(t: string, tag: string) {
    t == "" || (!EndsWith(t, tag) && NoEarlyEnd(t[..|t| - 1], tag))
  }

  lemma {:induction false} TextGathers(env: Env, s: State, t: string)
    requires s.stage != InValue && s.tag == "" && NoEarlyEnd(t, Awaited(s.stage))
    ensures PutAll(env, s, t) == Output(s.(tag := t), "")
  {
    hide Put, EndsWith;
    if t != "" {
      var before, c := t[..|t| - 1], t[|t| - 1];
      assert t == before + [c];
      TextGathers(env, s, before);
      PutGathers(env, s.(tag := before), c);
      assert "" + "" == "";
    }
  }

  lemma PutGathers(env: Env, s: State, c: char)
    requires s.stage != InValue && !EndsWith(s.tag + [c], Awaited(s.stage))
    ensures Put(env, s, c) == Output(s.(tag := s.tag + [c]), "")
  {
    hide EndsWith;
  }

  /** Text without the tag, then a proper prefix of it, does not end in the tag. */
  lemma NotEndedYet(g: string, tag: string, i: nat)
    requires IndexOf(tag, g) == -1 && OpensOnce(tag) && i < |tag|
    ensures !EndsWith(g + tag[..i], tag)
  {
    var t := g + tag[..i];
    assert i == 0 ==> t == g;
    if EndsWith(t, tag) {
      assert t[|t| - |tag|..|t|] == t[|t| - |tag|..];
      assert OccursAt(tag, t, |t| - |tag|);
      if i > 0 {
        CharWithin(tag, t, |t| - |tag|, |g|);
      }
    }
  }

  lemma {:induction false} TagNotYet(g: string, tag: string, i: nat)
    requires IndexOf(tag, g) == -1 && OpensOnce(tag) && i < |tag|
    ensures NoEarlyEnd(g + tag[..i], tag)
    decreases |g| + i
  {
    hide IndexOf, OpensOnce, EndsWith;
    var t := g + tag[..i];
    if t != "" {
      NotEndedYet(g, tag, i);
      if i > 0 {
        assert t[..|t| - 1] == g + tag[..i - 1];
        TagNotYet(g, tag, i - 1);
      } else {
        assert t[..|t| - 1] == g[..|g| - 1] + tag[..0];
        assert g == g[..|g| - 1] + [g[|g| - 1]];
        OccursLonger(tag, g[..|g| - 1], g[|g| - 1]);
        TagNotYet(g[..|g| - 1], tag, 0);
      }
    }
  }

  lemma TagsOpenOnce(stage: Stage)
    ensures OpensOnce(Awaited(stage))
  {
  }

  /** Free text and the awaited tag: the tag is seen at its last character. */
  lemma TextThenTag(env: Env, s: State, g: string)
    requires s.stage != InValue && s.tag == "" && IndexOf(Awaited(s.stage), g) == -1
    ensures var tag := Awaited(s.stage);
            var p := g + tag[..|tag| - 1];
            PutAll(env, s, g + tag) == Put(env, s.(tag := p), tag[|tag| - 1]) && EndsWith(g + tag, tag)
            && p + [tag[|tag| - 1]] == g + tag
  {
    hide Put, NoEarlyEnd, IndexOf, OpensOnce;
    var tag := Awaited(s.stage);
    var t := g + tag;
    TagsOpenOnce(s.stage);
    TagNotYet(g, tag, |tag| - 1);
    assert t[..|t| - 1] == g + tag[..|tag| - 1] && t[|t| - 1] == tag[|tag| - 1];
    TextGathers(env, s, t[..|t| - 1]);
    assert t[|t| - |tag|..] == tag;
    var o := Put(env, s.(tag := t[..|t| - 1]), t[|t| - 1]);
    assert "" + o.json == o.json;
  }

  lemma ReadOpen(env: Env, s: State, g: string)
    requires (s.stage == Init || s.stage == Between) && s.tag == "" && IndexOf(KEY, g) == -1
    ensures PutAll(env, s, g + KEY)
         == Output(s.(stage := InKey, key := "", tag := "", isFirst := false), if s.isFirst then "{" else ", ")
  {
    TextThenTag(env, s, g);
  }

  lemma ReadKey(env: Env, s: State, key: string)
    requires s.stage == InKey && s.tag == "" && IndexOf(KEY_END, key) == -1
    ensures PutAll(env, s, key + KEY_END)
         == Output(s.(stage := WaitingValue, key := Strip(key), tag := ""), Dumps(env, Strip(key)) + ": ")
  {
    hide Strip, Dumps;
    TextThenTag(env, s, key);
    assert (key + KEY_END)[..|key|] == key;
  }

  lemma ReadBetween(env: Env, s: State, g: string)
    requires s.stage == WaitingValue && s.tag == "" && IndexOf(VALUE, g) == -1
    ensures PutAll(env, s, g + VALUE)
         == Output(s.(stage := InValue, tag := "", started := false, kind := env.kindOf(s.key)), "")
  {
    TextThenTag(env, s, g);
  }

  /** Ready for the next argument. */
  predicate Ready(s: State) {
    (s.stage == Init || s.stage == Between) && s.tag == ""
  }

  /** One readable argument adds its separator and its pair. */
  lemma ReadArgument(env: Env, s: State, a: Argument)
    requires Ready(s) && Readable(a)
    ensures var o := PutAll(env, s, Render(a));
            Ready(o.state) && !o.state.isFirst && o.json == (if s.isFirst then "{" else ", ") + PairText(env, a)
  {
    hide PutAll, Put, Residue, Strip, Dumps, ValueText, IndexOf;
    var r1 := a.before + KEY;
    var r2 := r1 + (a.key + KEY_END);
    var r3 := r2 + (a.between + VALUE);
    ReadOpen(env, s, a.before);
    var s1 := PutAll(env, s, r1).state;
    PutAllConcat(env, s, r1, a.key + KEY_END);
    ReadKey(env, s1, a.key);
    var s2 := PutAll(env, s, r2).state;
    PutAllConcat(env, s, r2, a.between + VALUE);
    ReadBetween(env, s2, a.between);
    var s3 := PutAll(env, s, r3).state;
    PutAllConcat(env, s, r3, a.value + VALUE_END);
    CloseIsSeenIffNoResidue(env, s3, a.value);
    assert PutAll(env, s, r3).json == (if s.isFirst then "{" else ", ") + (Dumps(env, Strip(a.key)) + ": ") + "";
  }

  lemma PutNothing(env: Env, s: State)
    ensures PutAll(env, s, "") == Output(s, "")
  {
  }

  /** Every readable argument list comes out as its JSON object, however the text arrives. */
  lemma {:induction false} ArgumentsBecomeObject(env: Env, arguments: seq<Argument>)
    requires forall a :: a in arguments ==> Readable(a)
    ensures var o := PutAll(env, FRESH, RenderAll(arguments));
            && Ready(o.state) && (o.state.isFirst <==> arguments == [])
            && o.json == OpenObject(env, arguments)
            && o.json + Finish(o.state) == Object(env, arguments)
  {
    hide PutAll, PairText, Render, Readable;
    if arguments == [] {
      PutNothing(env, FRESH);
    } else {
      var n := |arguments| - 1;
      var before := RenderAll(arguments[..n]);
      var o := PutAll(env, FRESH, before);
      ArgumentsBecomeObject(env, arguments[..n]);
      PutAllConcat(env, FRESH, before, Render(arguments[n]));
      ReadArgument(env, o.state, arguments[n]);
      Assoc(o.json, if n == 0 then "{" else ", ", PairText(env, arguments[n]));
    }
  }

  /** The entries of the arguments, in order. */
  function EntriesOf(env: Env, arguments: seq<Argument>): (d: Dictionaries.Entries<string>)
    ensures |d| == |arguments|
  {
    seq(|arguments|, i requires 0 <= i < |arguments| =>
      Dictionaries.Entry(Strip(arguments[i].key),
                         ValueText(env, env.kindOf(Strip(arguments[i].key)), arguments[i].value)))
  }

  lemma {:induction false} OpenObjectText(env: Env, arguments: seq<Argument>)
    ensures (if arguments == [] then "{" else OpenObject(env, arguments)) ==
            Dictionaries.OpenText(k => Dumps(env, k), EntriesOf(env, arguments))
    decreases |arguments|
  {
    hide Dumps, ValueText, Strip, Dictionaries.OpenText;
    var key := k => Dumps(env, k);
    if arguments == [] {
      NothingOpen(key);
    } else {
      var n := |arguments| - 1;
      var d, e := EntriesOf(env, arguments[..n]), EntriesOf(env, arguments)[n];
      assert EntriesOf(env, arguments) == d + [e];
      assert PairText(env, arguments[n]) == Dictionaries.EntryText(key, e);
      OpenObjectText(env, arguments[..n]);
      Dictionaries.OpenTextMore(key, d, e);
      Separated(if n == 0 then "" else OpenObject(env, arguments[..n]), n == 0, PairText(env, arguments[n]));
    }
  }

  lemma NothingOpen(key: string -> string)
    ensures Dictionaries.OpenText(key, []) == "{"
  {
  }

  lemma Separated(before: string, first: bool, pair: string)
    ensures !first ==> before + ", " + pair == before + (", " + pair)
    ensures first && before == "" ==> before + "{" + pair == "{" + ("" + pair)
  {
  }

  /** Every readable argument list comes out as the text of its entries, however the text is cut: which is
      `json.dumps` of its dictionary exactly when no key is repeated. */
  lemma ArgumentsBecomeDictionary(env: Env, arguments: seq<Argument>, pieces: seq<string>)
    requires (forall a :: a in arguments ==> Readable(a)) && Concat(pieces) == RenderAll(arguments)
    ensures var o, d := PutPieces(env, FRESH, pieces), EntriesOf(env, arguments);
            && o.json + Finish(o.state) == Dictionaries.ObjectText(k => Dumps(env, k), d)
            && (Dictionaries.PutAll([], d) == d <==> Dictionaries.DistinctKeys(d))
  {
    hide PutAll, PutPieces, Readable, OpenObject, Dumps, Dictionaries.PutAll, Dictionaries.DistinctKeys;
    PiecesDoNotMatter(env, FRESH, pieces);
    ArgumentsBecomeObject(env, arguments);
    Dictionaries.DictIsAsWritten(EntriesOf(env, arguments));
    OpenObjectText(env, arguments);
  }

  /** The value `a<`: its closing tag is not seen, and the value goes on. */
  lemma ValueNeverCloses(env: Env, s: State)
    requires Entering(s)
    ensures Residue("a<") == "<" && PutAll(env, s, "a<" + VALUE_END).state.stage == InValue
  {
    hide PutAll, EndsWith;
    assert "a"[..0] == "" && Residue("a") == "" && "a<"[..1] == "a";
    assert !Occurs(VALUE_END, "a<");
    CloseIsSeenIffNoResidue(env, s, "a<");
  }

  class Transducer {
    const env: Env
    var streamState: Stage
    var currentKey: string
    var xmlTagBuffer: string
    var isFirstParam: bool
    var valueStarted: bool
    var cachedValueType: Kind

    constructor (env: Env)
      ensures this.env == env && Current() == FRESH
    {
      this.env := env;
      streamState, currentKey, xmlTagBuffer := Init, "", "";
      isFirstParam, valueStarted, cachedValueType := true, false, Quoted;
    }

    ghost function Current(): State
      reads this
    {
      State(streamState, currentKey, xmlTagBuffer, isFirstParam, valueStarted, cachedValueType)
    }

    /** Take in more XML, and return the JSON it adds. */
    method ProcessXmlToJsonStreaming(rawIncrement: string) returns (json: string)
      modifies this
      ensures PutAll(env, old(Current()), rawIncrement) == Output(Current(), json)
    {
      hide Put;
      json := "";
      for i := 0 to |rawIncrement|
        invariant PutAll(env, old(Current()), rawIncrement[..i]) == Output(Current(), json)
      {
        assert rawIncrement[..i + 1][..i] == rawIncrement[..i];
        var more := ProcessChar(rawIncrement[i]);
        json := json + more;
      }
      assert rawIncrement[..|rawIncrement|] == rawIncrement;
    }

    method ProcessChar(c: char) returns (json: string)
      modifies this
      ensures Put(env, old(Current()), c) == Output(Current(), json)
    {
      hide Strip, Dumps, Body;
      json := "";
      xmlTagBuffer := xmlTagBuffer + [c];
      if streamState == Init || streamState == Between {
        if EndsWith(xmlTagBuffer, KEY) {
          streamState, currentKey, xmlTagBuffer := InKey, "", "";
          json := if isFirstParam then "{" else ", ";
          isFirstParam := false;
        }
      } else if streamState == InKey {
        if EndsWith(xmlTagBuffer, KEY_END) {
          currentKey := Strip(xmlTagBuffer[..|xmlTagBuffer| - |KEY_END|]);
          xmlTagBuffer, streamState := "", WaitingValue;
          json := Dumps(env, currentKey) + ": ";
        }
      } else if streamState == WaitingValue {
        if EndsWith(xmlTagBuffer, VALUE) {
          streamState, xmlTagBuffer, valueStarted := InValue, "", false;
          cachedValueType := env.kindOf(currentKey);
        }
      } else if EndsWith(xmlTagBuffer, VALUE_END) {
        var finalValue := xmlTagBuffer[..|xmlTagBuffer| - |VALUE_END|];
        if valueStarted {
          json := Body(env, cachedValueType, finalValue) + Quote(cachedValueType);
        } else {
          json := ValueText(env, cachedValueType, finalValue);
        }
        xmlTagBuffer, streamState, valueStarted := "", Between, false;
      } else if !(xmlTagBuffer <= VALUE_END) {
        if !valueStarted {
          json := Quote(cachedValueType);
          valueStarted := true;
        }
        json := json + Body(env, cachedValueType, xmlTagBuffer);
        xmlTagBuffer := "";
      }
    }
  }
}
