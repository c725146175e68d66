/** JSON string literals, as `json.dumps` writes them and as the streaming code escapes them. */
module JsonStrings {

  const HEX := "0123456789abcdef"

  /** `\u00XY` for a control character. */
  function HexEscape(c: char): string
    requires c as int < 32
  {
    "\\u00" + [HEX[c as int / 16], HEX[c as int % 16]]
  }

  /** What `json.dumps` writes for one character, ASCII escaping off. */
  function DumpChar(c: char): string {
    if c == '"' then "\\\""
    else if c == '\\' then "\\\\"
    else if c == '\n' then "\\n"
    else if c == '\r' then "\\r"
    else if c == '\t' then "\\t"
    else if c as int == 8 then "\\b"
    else if c as int == 12 then "\\f"
    else if c as int < 32 then HexEscape(c)
    else [c]
  }

  function Dump(s: string): string {
    if s == "" then "" else DumpChar(s[0]) + Dump(s[1..])
  }

  /** `json.dumps` of a string. */
  function Quoted(s: string): string {
    "\"" + Dump(s) + "\""
  }

  /** `s.replace(c, r)` for a single character. */
  function Replace(s: string, c: char, r: string): string {
    if s == "" then "" else (if s[0] == c then r else [s[0]]) + Replace(s[1..], c, r)
  }

  /** The chain of replacements that escapes a streamed value. */
  function Escape(s: string): string {
    Replace(Replace(Replace(Replace(Replace(s, '\\', "\\\\"), '"', "\\\""), '\n', "\\n"), '\r', "\\r"), '\t', "\\t")
  }

  /** A control character that the chain leaves as it is. */
  predicate Raw(c: char) {
    c as int < 32 && c != '\n' && c != '\r' && c != '\t'
  }

  lemma {:induction false} ReplaceConcat(s: string, t: string, c: char, r: string)
    ensures Replace(s + t, c, r) == Replace(s, c, r) + Replace(t, c, r)
  {
    if s == "" {
      assert s + t == t;
    } else {
      assert (s + t)[0] == s[0] && (s + t)[1..] == s[1..] + t;
      ReplaceConcat(s[1..], t, c, r);
    }
  }

  /** The chain works character by character: no replacement touches what an earlier one put in. */
  lemma EscapeConcat(s: string, t: string)
    ensures Escape(s + t) == Escape(s) + Escape(t)
  {
    ReplaceConcat(s, t, '\\', "\\\\");
    var s1, t1 := Replace(s, '\\', "\\\\"), Replace(t, '\\', "\\\\");
    ReplaceConcat(s1, t1, '"', "\\\"");
    var s2, t2 := Replace(s1, '"', "\\\""), Replace(t1, '"', "\\\"");
    ReplaceConcat(s2, t2, '\n', "\\n");
    var s3, t3 := Replace(s2, '\n', "\\n"), Replace(t2, '\n', "\\n");
    ReplaceConcat(s3, t3, '\r', "\\r");
    ReplaceConcat(Replace(s3, '\r', "\\r"), Replace(t3, '\r', "\\r"), '\t', "\\t");
  }

  lemma ReplaceShort(s: string, c: char, r: string)
    requires 1 <= |s| <= 2
    ensures Replace(s, c, r) == (if s[0] == c then r else [s[0]])
            + if |s| == 1 then "" else if s[1] == c then r else [s[1]]
  {
    if |s| == 2 {
      assert Replace(s[1..], c, r) == (if s[1] == c then r else [s[1]]) + Replace(s[1..][1..], c, r);
    }
  }

  lemma EscapeChar(c: char)
    ensures Escape([c]) == if Raw(c) then [c] else DumpChar(c)
  {
    hide Replace;
    ReplaceShort([c], '\\', "\\\\");
    var s1 := Replace([c], '\\', "\\\\");
    ReplaceShort(s1, '"', "\\\"");
    var s2 := Replace(s1, '"', "\\\"");
    ReplaceShort(s2, '\n', "\\n");
    var s3 := Replace(s2, '\n', "\\n");
    ReplaceShort(s3, '\r', "\\r");
    ReplaceShort(Replace(s3, '\r', "\\r"), '\t', "\\t");
  }

  /** The chain spells a string as `json.dumps` does exactly when it holds no other control character. */
  lemma {:induction false} EscapeIsDump(s: string)
    ensures Escape(s) == Dump(s) <==> forall c :: c in s ==> !Raw(c)
    ensures |Escape(s)| <= |Dump(s)|
  {
    hide Escape;
    if s == "" {
      EscapeNothing();
    } else {
      assert s == [s[0]] + s[1..];
      EscapeConcat([s[0]], s[1..]);
      EscapeChar(s[0]);
      EscapeIsDump(s[1..]);
      assert forall c :: c in s <==> c == s[0] || c in s[1..];
      if Escape(s) == Dump(s) {
        assert |Escape([s[0]])| == |DumpChar(s[0])|;
        assert Escape(s)[|DumpChar(s[0])|..] == Escape(s[1..]) && Dump(s)[|DumpChar(s[0])|..] == Dump(s[1..]);
      }
    }
  }

  lemma EscapeNothing()
    ensures Escape("") == ""
  {
  }

  lemma {:induction false} DumpConcat(s: string, t: string)
    ensures Dump(s + t) == Dump(s) + Dump(t)
  {
    if s == "" {
      assert s + t == t;
    } else {
      assert (s + t)[0] == s[0] && (s + t)[1..] == s[1..] + t;
      DumpConcat(s[1..], t);
    }
  }

  /** What is escaped of a prefix is a prefix of the whole string's text. */
  lemma PrefixDumps(s: string, n: nat)
    requires n <= |s| && forall c :: c in s ==> !Raw(c)
    ensures Escape(s[..n]) <= Dump(s)
  {
    hide Escape, Dump;
    assert s == s[..n] + s[n..];
    DumpConcat(s[..n], s[n..]);
    assert forall c :: c in s[..n] ==> c in s;
    EscapeIsDump(s[..n]);
  }

  /** A raw control character shows: the escaped text then begins no continuation of the JSON text. */
  lemma {:induction false} RawNeverFits(s: string, more: string)
    requires exists c :: c in s && Raw(c)
    ensures !(Escape(s) <= Dump(s) + more)
  {
    hide Escape, Dump, DumpChar;
    assert s == [s[0]] + s[1..];
    EscapeConcat([s[0]], s[1..]);
    EscapeChar(s[0]);
    var d := DumpChar(s[0]);
    DumpFirst(s);
    assert Dump(s) + more == d + (Dump(s[1..]) + more);
    if Raw(s[0]) {
      RawIsEscaped(s[0]);
      assert Escape(s)[0] == s[0] != (Dump(s) + more)[0];
    } else {
      RawIsLater(s);
      RawNeverFits(s[1..], more);
      SamePrefix(d, Escape(s[1..]), Dump(s[1..]) + more);
    }
  }

  lemma DumpFirst(s: string)
    requires s != ""
    ensures Dump(s) == DumpChar(s[0]) + Dump(s[1..])
  {
  }

  lemma RawIsEscaped(c: char)
    requires Raw(c)
    ensures DumpChar(c) != "" && DumpChar(c)[0] == '\\' && c != '\\'
  {
  }

  lemma RawIsLater(s: string)
    requires s != "" && !Raw(s[0]) && exists c :: c in s && Raw(c)
    ensures exists c :: c in s[1..] && Raw(c)
  {
    var c :| c in s && Raw(c);
    assert c in s[1..];
  }

  lemma SamePrefix(d: string, x: string, y: string)
    ensures d + x <= d + y <==> x <= y
  {
    if d + x <= d + y {
      assert x == (d + x)[|d|..] == (d + y)[|d|..|d| + |x|] == y[..|x|];
    }
  }
}
