/** LFM2's escaping of control characters inside the string literals of a pythonic call. */
module Lfm2Escape {
  import opened Strings

  predicate Quote(c: char) {
    c == '\'' || c == '"'
  }

  predicate Control(c: char) {
    c == '\n' || c == '\r' || c == '\t' || c == '\0'
  }

  function CharText(c: char): string {
    if c == '\n' then "\\n" else if c == '\r' then "\\r" else if c == '\t' then "\\t"
    else if c == '\0' then "\\x00" else [c]
  }

  /** The text with the control characters in its literals escaped; `quote` is the one that is open. */
  function Escape(t: string, quote: Option<char>): string
    decreases |t|
  {
    if t == "" then ""
    else if quote.None? then [t[0]] + Escape(t[1..], if Quote(t[0]) then Some(t[0]) else None)
    else if t[0] == '\\' && |t| > 1 then t[..2] + Escape(t[2..], quote)
    else if t[0] == quote.value then [t[0]] + Escape(t[1..], None)
    else CharText(t[0]) + Escape(t[1..], quote)
  }

  lemma EscapeStep(s: string, i: nat, quote: Option<char>)
    requires i < |s|
    ensures Escape(s[i..], quote) ==
      if quote.None? then [s[i]] + Escape(s[i + 1..], if Quote(s[i]) then Some(s[i]) else None)
      else if s[i] == '\\' && i + 1 < |s| then [s[i]] + [s[i + 1]] + Escape(s[i + 2..], quote)
      else if s[i] == quote.value then [s[i]] + Escape(s[i + 1..], None)
      else CharText(s[i]) + Escape(s[i + 1..], quote)
  {
    assert s[i..][1..] == s[i + 1..];
    if i + 1 < |s| {
      assert s[i..][2..] == s[i + 2..] && s[i..][..2] == [s[i]] + [s[i + 1]];
    }
  }

  lemma EscapeNothing(quote: Option<char>)
    ensures Escape("", quote) == ""
  {
  }

  method EscapeCtrlCharsInStrings(text: string) returns (out: string)
    ensures out == Escape(text, None)
  {
    hide Quote, Escape, CharText;
    out := "";
    var quote: Option<char> := None;
    var index := 0;
    while index < |text|
      invariant index <= |text| && out + Escape(text[index..], quote) == Escape(text, None)
    {
      var c := text[index];
      EscapeStep(text, index, quote);
      if quote.None? {
        if Quote(c) {
          quote := Some(c);
        }
        out := out + [c];
      } else if c == '\\' && index + 1 < |text| {
        out := out + [c] + [text[index + 1]];
        index := index + 2;
        continue;
      } else if c == quote.value {
        quote := None;
        out := out + [c];
      } else {
        out := out + CharText(c);
      }
      index := index + 1;
    }
    assert text[index..] == "";
    EscapeNothing(quote);
  }

  /** What the quote scanner sees: a character outside literals, a quote that opens or closes one, a
      character inside, or a backslash with the character behind it. */
  datatype Token = Outside(c: char) | Opening(c: char) | Closing(c: char) | Inside(c: char) | Pair(c: char)

  function Tokens(t: string, quote: Option<char>): seq<Token>
    decreases |t|
  {
    if t == "" then []
    else if quote.None? then
      if Quote(t[0]) then [Opening(t[0])] + Tokens(t[1..], Some(t[0])) else [Outside(t[0])] + Tokens(t[1..], None)
    else if t[0] == '\\' && |t| > 1 then [Pair(t[1])] + Tokens(t[2..], quote)
    else if t[0] == quote.value then [Closing(t[0])] + Tokens(t[1..], None)
    else [Inside(t[0])] + Tokens(t[1..], quote)
  }

  function RewrittenToken(k: Token): seq<Token> {
    if k == Inside('\n') then [Pair('n')]
    else if k == Inside('\r') then [Pair('r')]
    else if k == Inside('\t') then [Pair('t')]
    else if k == Inside('\0') then [Pair('x'), Inside('0'), Inside('0')]
    else [k]
  }

  function Rewritten(ts: seq<Token>): seq<Token> {
    if ts == [] then [] else RewrittenToken(ts[0]) + Rewritten(ts[1..])
  }

  /** The scanner sees the same literals in the escaped text: only control characters inside them have
      turned into escapes. */
  lemma {:induction false} SameLiterals(t: string, quote: Option<char>)
    requires quote.Some? ==> Quote(quote.value)
    ensures Tokens(Escape(t, quote), quote) == Rewritten(Tokens(t, quote))
    decreases |t|
  {
    hide Rewritten, CharText;
    if t == "" {
      RewrittenNothing();
    } else if quote.None? {
      var next := if Quote(t[0]) then Some(t[0]) else None;
      SameLiterals(t[1..], next);
      assert ([t[0]] + Escape(t[1..], next))[1..] == Escape(t[1..], next);
      RewrittenCons(if Quote(t[0]) then Opening(t[0]) else Outside(t[0]), Tokens(t[1..], next));
    } else if t[0] == '\\' && |t| > 1 {
      SameLiterals(t[2..], quote);
      assert (t[..2] + Escape(t[2..], quote))[2..] == Escape(t[2..], quote);
      RewrittenCons(Pair(t[1]), Tokens(t[2..], quote));
    } else if t[0] == quote.value {
      SameLiterals(t[1..], None);
      assert ([t[0]] + Escape(t[1..], None))[1..] == Escape(t[1..], None);
      RewrittenCons(Closing(t[0]), Tokens(t[1..], None));
    } else {
      SameLiterals(t[1..], quote);
      InsideRead(t[0], Escape(t[1..], quote), quote.value);
      RewrittenCons(Inside(t[0]), Tokens(t[1..], quote));
    }
  }

  lemma RewrittenCons(k: Token, ts: seq<Token>)
    ensures Rewritten([k] + ts) == RewrittenToken(k) + Rewritten(ts)
  {
    assert ([k] + ts)[1..] == ts;
  }

  lemma RewrittenNothing()
    ensures Rewritten([]) == []
  {
  }

  /** One character of a literal, escaped, read again. */
  lemma InsideRead(c: char, rest: string, quote: char)
    requires Quote(quote) && c != quote && (c == '\\' ==> rest == "")
    ensures Tokens(CharText(c) + rest, Some(quote)) == RewrittenToken(Inside(c)) + Tokens(rest, Some(quote))
  {
    var s := CharText(c) + rest;
    if c == '\0' {
      assert s[2..] == "00" + rest && ("00" + rest)[1..] == "0" + rest && ("0" + rest)[1..] == rest;
      assert Tokens("0" + rest, Some(quote)) == [Inside('0')] + Tokens(rest, Some(quote));
      assert Tokens("00" + rest, Some(quote)) == [Inside('0')] + Tokens("0" + rest, Some(quote));
    } else if Control(c) {
      assert s[2..] == rest;
    } else {
      assert s[1..] == rest;
    }
  }

  /** Nothing is left to rewrite. */
  lemma {:induction false} RewrittenTwice(ts: seq<Token>)
    ensures Rewritten(Rewritten(ts)) == Rewritten(ts)
  {
    if ts != [] {
      RewrittenTwice(ts[1..]);
      RewrittenConcat(RewrittenToken(ts[0]), Rewritten(ts[1..]));
      RewrittenOnce(ts[0]);
    }
  }

  lemma {:induction false} RewrittenConcat(x: seq<Token>, y: seq<Token>)
    ensures Rewritten(x + y) == Rewritten(x) + Rewritten(y)
  {
    if x == [] {
      assert x + y == y;
    } else {
      assert (x + y)[0] == x[0] && (x + y)[1..] == x[1..] + y;
      RewrittenConcat(x[1..], y);
    }
  }

  lemma RewrittenOnce(k: Token)
    ensures Rewritten(RewrittenToken(k)) == RewrittenToken(k)
  {
    var ts := RewrittenToken(k);
    if k == Inside('\0') {
      assert ts[1..] == [Inside('0'), Inside('0')] && ts[1..][1..] == [Inside('0')] && ts[1..][1..][1..] == [];
      assert Rewritten([Inside('0')]) == [Inside('0')];
      assert Rewritten([Inside('0'), Inside('0')]) == [Inside('0'), Inside('0')];
    } else {
      assert ts[1..] == [];
    }
  }

  /** A text is what its tokens spell. */
  function Spelled(ts: seq<Token>): string {
    if ts == [] then "" else (if ts[0].Pair? then ['\\', ts[0].c] else [ts[0].c]) + Spelled(ts[1..])
  }

  lemma {:induction false} TokensSpell(t: string, quote: Option<char>)
    ensures Spelled(Tokens(t, quote)) == t
    decreases |t|
  {
    hide Quote;
    if t == "" {
    } else if quote.None? {
      TokensSpell(t[1..], if Quote(t[0]) then Some(t[0]) else None);
      assert t == [t[0]] + t[1..];
    } else if t[0] == '\\' && |t| > 1 {
      TokensSpell(t[2..], quote);
      assert t == ['\\', t[1]] + t[2..];
    } else if t[0] == quote.value {
      TokensSpell(t[1..], None);
    } else {
      TokensSpell(t[1..], quote);
    }
  }

  /** Escaping twice is escaping once. */
  lemma EscapeTwice(t: string)
    ensures Escape(Escape(t, None), None) == Escape(t, None)
  {
    hide Escape, Tokens, Rewritten, Spelled;
    var once := Escape(t, None);
    SameLiterals(t, None);
    SameLiterals(once, None);
    RewrittenTwice(Tokens(t, None));
    TokensSpell(once, None);
    TokensSpell(Escape(once, None), None);
  }

  /** What stands directly in front of the next token: a word, or an empty literal, whose quote together
      with one more opens a literal of three quotes; or the literal it stands in. */
  datatype Front = Name(word: string) | Emptied(prefix: string, quote: char) | In(prefix: string, empty: bool)

  predicate NameChar(c: char) {
    'a' <= c <= 'z' || 'A' <= c <= 'Z' || '0' <= c <= '9' || c == '_' || c as int >= 0x80
  }

  function Next(f: Front, k: Token): Front {
    match k
    case Outside(c) => Name(if NameChar(c) then (if f.Name? then f.word else "") + [c] else "")
    case Opening(q) => In(if f.Name? then f.word else if f.Emptied? && f.quote == q then f.prefix else "", true)
    case Closing(q) => if f.In? && f.empty then Emptied(f.prefix, q) else Name("")
    case _ => Inner(f)
  }

  function Inner(f: Front): Front {
    In(if f.In? then f.prefix else "", false)
  }

  /** `r`, alone or with `b` or `f`: the prefix of a literal in which a backslash is a character. */
  predicate RawPrefix(p: string) {
    (|p| == 1 && p[0] in "rR")
    || (|p| == 2 && ((p[0] in "rR" && p[1] in "bBfF") || (p[0] in "bBfF" && p[1] in "rR")))
  }

  predicate Raw(f: Front) {
    f.In? && RawPrefix(f.prefix)
  }

  /** What stands in front of the tokens behind these. */
  function FrontBehind(ts: seq<Token>, f: Front): Front {
    if ts == [] then f else FrontBehind(ts[1..], Next(f, ts[0]))
  }

  function WordTokens(word: string): seq<Token> {
    if word == "" then [] else [Outside(word[0])] + WordTokens(word[1..])
  }

  predicate IsWord(word: string) {
    forall c :: c in word ==> 'a' <= c <= 'z' || 'A' <= c <= 'Z' || '0' <= c <= '9' || c == '_'
  }

  lemma WordGoesOn(word: string, before: string)
    requires IsWord(word) && word != ""
    ensures Next(Name(before), Outside(word[0])) == Name(before + [word[0]]) && IsWord(word[1..])
  {
    assert word[0] in word && forall c :: c in word[1..] ==> c in word;
  }

  lemma FrontFirst(k: Token, ts: seq<Token>, f: Front)
    ensures FrontBehind([k] + ts, f) == FrontBehind(ts, Next(f, k))
  {
    hide Next;
    assert ([k] + ts)[1..] == ts;
  }

  lemma {:induction false} WordInFront(word: string, rest: seq<Token>, before: string)
    requires IsWord(word)
    ensures FrontBehind(WordTokens(word) + rest, Name(before)) == FrontBehind(rest, Name(before + word))
    decreases |word|
  {
    hide IsWord, Next, FrontBehind;
    if word == "" {
      assert WordTokens(word) + rest == rest && before + word == before;
    } else {
      TokensTogether([Outside(word[0])], WordTokens(word[1..]), rest);
      FrontFirst(Outside(word[0]), WordTokens(word[1..]) + rest, Name(before));
      WordGoesOn(word, before);
      WordInFront(word[1..], rest, before + [word[0]]);
      Assoc(before, [word[0]], word[1..]);
      assert [word[0]] + word[1..] == word;
    }
  }

  lemma TokensTogether(x: seq<Token>, y: seq<Token>, z: seq<Token>)
    ensures x + y + z == x + (y + z)
  {
  }

  /** A literal is raw exactly when the whole word in front of its quote is one of the prefixes with `r`. */
  lemma RawByPrefix(word: string, quote: char)
    requires IsWord(word)
    ensures Raw(FrontBehind(WordTokens(word) + [Opening(quote)], Name(""))) <==>
            word in {"r", "R", "rb", "rB", "Rb", "RB", "br", "bR", "Br", "BR",
                     "rf", "rF", "Rf", "RF", "fr", "fR", "Fr", "FR"}
  {
    hide IsWord, WordTokens, RawPrefix;
    WordInFront(word, [Opening(quote)], "");
    assert "" + word == word;
    assert [Opening(quote)][1..] == [];
    assert FrontBehind([Opening(quote)], Name(word)) == In(word, true);
    RawPrefixes(word);
  }

  lemma RawPrefixes(p: string)
    ensures RawPrefix(p) <==>
            p in {"r", "R", "rb", "rB", "Rb", "RB", "br", "bR", "Br", "BR",
                  "rf", "rF", "Rf", "RF", "fr", "fR", "Fr", "FR"}
  {
    if |p| == 1 {
      assert p == [p[0]];
    } else if |p| == 2 {
      assert p == [p[0], p[1]];
    }
  }

  /** What a backslash with its character means in a literal of that prefix, given the characters that
      follow up to the next control character or escape: how many of those it takes in, and its value. */
  type Meanings = (string, char, string) -> (nat, string)

  /** The escapes that the rewriting relies on mean what they do in Python. */
  ghost predicate Python(m: Meanings) {
    && (forall p, run :: m(p, 'n', run) == (0, "\n")) && (forall p, run :: m(p, 'r', run) == (0, "\r"))
    && (forall p, run :: m(p, 't', run) == (0, "\t")) && (forall p, run :: m(p, 'x', "00" + run) == (2, "\0"))
    && (forall p, c, run :: m(p, c, run).0 <= |run|)
  }

  /** What the literals of a text denote, amid the text outside them. */
  datatype Mark = Source(c: char) | Value(c: char)

  /** The characters that an escape at the front could take in. */
  function RunOf(ts: seq<Token>): (run: string)
    ensures |run| <= |ts|
  {
    if ts == [] || !ts[0].Inside? || Control(ts[0].c) then "" else [ts[0].c] + RunOf(ts[1..])
  }

  function Values(s: string): (r: seq<Mark>)
    ensures |r| == |s|
  {
    seq(|s|, i requires 0 <= i < |s| => Value(s[i]))
  }

  /** In a literal with a raw prefix, a backslash and its character stand for themselves. */
  ghost function Meaning(m: Meanings, ts: seq<Token>, f: Front): seq<Mark>
    requires Python(m)
    decreases |ts|
  {
    if ts == [] then []
    else
      match ts[0]
      case Inside(c) => [Value(c)] + Meaning(m, ts[1..], Inner(f))
      case Pair(c) =>
        if Raw(f) then Values(['\\', c]) + Meaning(m, ts[1..], Inner(f))
        else
          var escape := m(Inner(f).prefix, c, RunOf(ts[1..]));
          Values(escape.1) + Meaning(m, ts[1 + escape.0..], Inner(f))
      case _ => [Source(ts[0].c)] + Meaning(m, ts[1..], Next(f, ts[0]))
  }

  /** A literal with a raw prefix holds a control character that is not behind a backslash. */
  predicate RawHoldsControl(ts: seq<Token>, f: Front) {
    ts != [] && ((Raw(f) && ts[0].Inside? && Control(ts[0].c)) || RawHoldsControl(ts[1..], Next(f, ts[0])))
  }

  lemma {:induction false} SameRun(ts: seq<Token>)
    ensures RunOf(Rewritten(ts)) == RunOf(ts)
  {
    if ts != [] && ts[0].Inside? && !Control(ts[0].c) {
      SameRun(ts[1..]);
      assert Rewritten(ts)[1..] == Rewritten(ts[1..]);
    }
  }

  /** Characters that an escape takes in are not rewritten, and no control characters. */
  lemma {:induction false} RewrittenBehind(ts: seq<Token>, f: Front, n: nat)
    requires n <= |RunOf(ts)| && f == Inner(f)
    ensures n <= |Rewritten(ts)| && Rewritten(ts)[n..] == Rewritten(ts[n..])
    ensures RawHoldsControl(ts[n..], f) == RawHoldsControl(ts, f)
  {
    hide Rewritten, RewrittenToken, Raw;
    if n > 0 {
      assert ts == [ts[0]] + ts[1..];
      RewrittenCons(ts[0], ts[1..]);
      OthersKept(ts[0]);
      RewrittenBehind(ts[1..], f, n - 1);
      assert Rewritten(ts)[n..] == Rewritten(ts[1..])[n - 1..] && ts[n..] == ts[1..][n - 1..];
    }
  }

  lemma OthersKept(k: Token)
    ensures !(k.Inside? && Control(k.c)) ==> RewrittenToken(k) == [k]
  {
  }

  lemma MeaningPair(m: Meanings, c: char, ts: seq<Token>, rest: seq<Token>, f: Front, n: nat)
    requires Python(m) && ts == [Pair(c)] + rest && !Raw(f)
    requires n == m(Inner(f).prefix, c, RunOf(rest)).0 && n <= |rest|
    ensures 1 + n <= |ts| && ts[1 + n..] == rest[n..]
    ensures Meaning(m, ts, f) == Values(m(Inner(f).prefix, c, RunOf(rest)).1) + Meaning(m, ts[1 + n..], Inner(f))
  {
    hide RunOf, Values, Python, Raw;
    assert ts[0] == Pair(c) && ts[1..] == rest;
  }

  lemma MeaningCons(m: Meanings, k: Token, rest: seq<Token>, f: Front)
    requires Python(m) && (k.Pair? ==> Raw(f))
    ensures Meaning(m, [k] + rest, f) ==
            (if k.Inside? then [Value(k.c)] else if k.Pair? then Values(['\\', k.c]) else [Source(k.c)])
            + Meaning(m, rest, Next(f, k))
  {
    hide Raw;
    assert ([k] + rest)[1..] == rest;
  }

  lemma HoldsCons(k: Token, rest: seq<Token>, f: Front)
    ensures RawHoldsControl([k] + rest, f) <==>
            (Raw(f) && k.Inside? && Control(k.c)) || RawHoldsControl(rest, Next(f, k))
  {
    hide Raw;
    assert ([k] + rest)[1..] == rest;
  }

  lemma TakesPart(m: Meanings, p: string, c: char, run: string)
    requires Python(m)
    ensures m(p, c, run).0 <= |run|
  {
  }

  /** An escape that has been put in means the control character, but two or more characters in a raw
      literal. */
  lemma EscapedMeans(m: Meanings, c: char, rest: seq<Token>, f: Front)
    requires Python(m) && Control(c) && !Raw(f)
    ensures Meaning(m, RewrittenToken(Inside(c)) + rest, f) == [Value(c)] + Meaning(m, rest, Inner(f))
  {
    hide Raw, Meaning;
    var ts := RewrittenToken(Inside(c)) + rest;
    if c == '\0' {
      var more := [Inside('0'), Inside('0')] + rest;
      RunOfZeros(rest);
      MeaningPair(m, 'x', ts, more, f, 2);
      assert more[2..] == rest && Values("\0") == [Value('\0')];
    } else {
      MeaningPair(m, RewrittenToken(Inside(c))[0].c, ts, rest, f, 0);
      assert rest[0..] == rest && Values([c]) == [Value(c)];
    }
  }

  lemma RunOfZeros(rest: seq<Token>)
    ensures RunOf([Inside('0'), Inside('0')] + rest) == "00" + RunOf(rest)
  {
    var one := [Inside('0')] + rest;
    assert one[1..] == rest && ([Inside('0'), Inside('0')] + rest)[1..] == one;
    assert RunOf(one) == "0" + RunOf(rest);
  }

  lemma EscapedMeansMore(m: Meanings, c: char, rest: seq<Token>, f: Front)
    requires Python(m) && Control(c) && Raw(f)
    ensures |Meaning(m, RewrittenToken(Inside(c)) + rest, f)| > 1 + |Meaning(m, rest, Inner(f))|
  {
    hide Raw, Meaning, Python;
    if c == '\0' {
      var more := [Inside('0')] + rest;
      MeaningCons(m, Inside('0'), rest, Inner(f));
      MeaningCons(m, Inside('0'), more, Inner(f));
      MeaningCons(m, Pair('x'), [Inside('0')] + more, f);
      assert RewrittenToken(Inside(c)) + rest == [Pair('x')] + ([Inside('0')] + more);
    } else {
      var k := RewrittenToken(Inside(c))[0];
      MeaningCons(m, k, rest, f);
      assert RewrittenToken(Inside(c)) == [k];
    }
  }

  /** The two texts mean the same, or else the rewritten one means more. */
  ghost predicate Compared(m: Meanings, ts: seq<Token>, f: Front)
    requires Python(m)
  {
    if RawHoldsControl(ts, f) then |Meaning(m, Rewritten(ts), f)| > |Meaning(m, ts, f)|
    else Meaning(m, Rewritten(ts), f) == Meaning(m, ts, f)
  }

  lemma PairMeans(m: Meanings, c: char, rest: seq<Token>, f: Front)
    requires Python(m) && !Raw(f)
    requires m(Inner(f).prefix, c, RunOf(rest)).0 <= |RunOf(rest)| <= |rest|
    requires Compared(m, rest[m(Inner(f).prefix, c, RunOf(rest)).0..], Inner(f))
    ensures RawHoldsControl([Pair(c)] + rest, f)
            ==> |Meaning(m, [Pair(c)] + Rewritten(rest), f)| > |Meaning(m, [Pair(c)] + rest, f)|
    ensures !RawHoldsControl([Pair(c)] + rest, f)
            ==> Meaning(m, [Pair(c)] + Rewritten(rest), f) == Meaning(m, [Pair(c)] + rest, f)
  {
    hide Rewritten, RunOf, Python, Meaning, Raw, RawHoldsControl;
    SameRun(rest);
    var n := m(Inner(f).prefix, c, RunOf(rest)).0;
    RewrittenBehind(rest, Inner(f), n);
    HoldsCons(Pair(c), rest, f);
    MeaningPair(m, c, [Pair(c)] + rest, rest, f, n);
    MeaningPair(m, c, [Pair(c)] + Rewritten(rest), Rewritten(rest), f, n);
  }

  lemma {:induction false} MeaningCompared(m: Meanings, ts: seq<Token>, f: Front)
    requires Python(m)
    ensures Compared(m, ts, f)
    decreases |ts|
  {
    hide Rewritten, RewrittenToken, RunOf, Python, Meaning, Control, Raw, RawHoldsControl;
    if ts == [] {
      RewrittenNothing();
      NothingHeld(f);
    } else {
      var k, rest := ts[0], ts[1..];
      assert ts == [k] + rest;
      RewrittenCons(k, rest);
      HoldsCons(k, rest, f);
      OthersKept(k);
      if k.Pair? && !Raw(f) {
        TakesPart(m, Inner(f).prefix, k.c, RunOf(rest));
        MeaningCompared(m, rest[m(Inner(f).prefix, k.c, RunOf(rest)).0..], Inner(f));
        PairMeans(m, k.c, rest, f);
      } else {
        MeaningCompared(m, rest, Next(f, k));
        MeaningCons(m, k, rest, f);
        if k.Inside? && Control(k.c) {
          if Raw(f) {
            EscapedMeansMore(m, k.c, Rewritten(rest), f);
          } else {
            EscapedMeans(m, k.c, Rewritten(rest), f);
          }
        } else {
          MeaningCons(m, k, Rewritten(rest), f);
        }
      }
    }
  }

  lemma NothingHeld(f: Front)
    ensures !RawHoldsControl([], f)
  {
  }

  /** Every literal of the escaped text denotes what it did exactly when no literal with a raw prefix
      holds a control character. */
  lemma EscapePreservesMeaning(m: Meanings, t: string)
    requires Python(m)
    ensures Meaning(m, Tokens(Escape(t, None), None), Name("")) == Meaning(m, Tokens(t, None), Name("")) <==>
            !RawHoldsControl(Tokens(t, None), Name(""))
  {
    hide Meaning, RawHoldsControl, Tokens, Escape, Rewritten;
    SameLiterals(t, None);
    MeaningCompared(m, Tokens(t, None), Name(""));
  }

  /** `r"x<tab>y"`: the tab comes to denote a backslash and a `t`. */
  lemma RawLiteralIsChanged(m: Meanings)
    requires Python(m)
    ensures var t := "r\"x\ty\"";
            && Escape(t, None) == "r\"x\\ty\""
            && Meaning(m, Tokens(t, None), Name("")) == [Source('r'), Source('"')] + (Values("x\ty") + [Source('"')])
            && Meaning(m, Tokens(Escape(t, None), None), Name("")) ==
               [Source('r'), Source('"')] + (Values("x\\ty") + [Source('"')])
  {
    hide Meaning, Python, Values, Tokens, Escape, RawLiteral;
    RawLiteralReads(m, Inside('\t'), "\t");
    RawLiteralReads(m, Pair('t'), "\\t");
    RawTokens();
    RawValues();
  }

  lemma RawValues()
    ensures Values("x") + Values("\t") + Values("y") == Values("x\ty")
    ensures Values("x") + Values("\\t") + Values("y") == Values("x\\ty")
  {
  }

  lemma RawTokens()
    ensures Escape("r\"x\ty\"", None) == "r\"x\\ty\""
    ensures Tokens("r\"x\ty\"", None) == RawLiteral(Inside('\t')) && Tokens("r\"x\\ty\"", None) == RawLiteral(Pair('t'))
  {
    hide Escape, Tokens;
    RawEnd();
    RawStart("x\ty\"");
    RawStart("x\\ty\"");
    assert "r\"" + "x\ty\"" == "r\"x\ty\"" && "r\"" + "x\\ty\"" == "r\"x\\ty\"";
  }

  lemma RawStart(inner: string)
    ensures Escape("r\"" + inner, None) == "r\"" + Escape(inner, Some('"'))
    ensures Tokens("r\"" + inner, None) == [Outside('r'), Opening('"')] + Tokens(inner, Some('"'))
  {
  }

  lemma RawEnd()
    ensures Escape("x\ty\"", Some('"')) == "x\\ty\""
    ensures Tokens("x\ty\"", Some('"')) == [Inside('x'), Inside('\t'), Inside('y'), Closing('"')]
    ensures Tokens("x\\ty\"", Some('"')) == [Inside('x'), Pair('t'), Inside('y'), Closing('"')]
  {
    assert Escape("y\"", Some('"')) == "y\"" && Tokens("y\"", Some('"')) == [Inside('y'), Closing('"')];
  }

  /** `r"x` and `y"` with a token between. */
  function RawLiteral(k: Token): seq<Token> {
    [Outside('r'), Opening('"'), Inside('x'), k, Inside('y'), Closing('"')]
  }

  lemma RawLiteralReads(m: Meanings, k: Token, value: string)
    requires Python(m) && (if k.Pair? then k.c == 't' && value == "\\t" else k == Inside('\t') && value == "\t")
    ensures Meaning(m, RawLiteral(k), Name("")) ==
            [Source('r'), Source('"')] + (Values("x") + Values(value) + Values("y") + [Source('"')])
  {
    hide Meaning, Python, Raw, RawLiteral, Values, Next;
    var tail := [k, Inside('y'), Closing('"')];
    RawFronts();
    RawTailReads(m, k, value);
    MeaningCons(m, Inside('x'), tail, In("r", true));
    MeaningCons(m, Opening('"'), [Inside('x')] + tail, Name("r"));
    MeaningCons(m, Outside('r'), [Opening('"')] + ([Inside('x')] + tail), Name(""));
    RawLiteralParts(k);
    OneValue('x');
    var rest := Values(value) + Values("y") + [Source('"')];
    assert [Source('r')] + ([Source('"')] + ([Value('x')] + rest)) ==
           [Source('r'), Source('"')] + ([Value('x')] + Values(value) + Values("y") + [Source('"')]);
  }

  lemma OneValue(c: char)
    ensures Values([c]) == [Value(c)]
  {
  }

  /** The way into a literal with the prefix `r`. */
  lemma RawFronts()
    ensures Next(Name(""), Outside('r')) == Name("r") && Next(Name("r"), Opening('"')) == In("r", true)
    ensures Next(In("r", true), Inside('x')) == In("r", false)
  {
    assert "" + ['r'] == "r";
  }

  lemma RawLiteralParts(k: Token)
    ensures RawLiteral(k) == [Outside('r')] + ([Opening('"')] + ([Inside('x')] + [k, Inside('y'), Closing('"')]))
  {
  }

  lemma RawTailReads(m: Meanings, k: Token, value: string)
    requires Python(m) && (if k.Pair? then k.c == 't' && value == "\\t" else k == Inside('\t') && value == "\t")
    ensures Meaning(m, [k, Inside('y'), Closing('"')], In("r", false)) == Values(value) + Values("y") + [Source('"')]
  {
    hide Meaning, Python;
    var q, end := In("r", false), [Closing('"')];
    MeaningOfNone(m, Next(q, Closing('"')));
    MeaningCons(m, Closing('"'), [], q);
    MeaningCons(m, Inside('y'), end, q);
    MeaningCons(m, k, [Inside('y')] + end, q);
    assert [k, Inside('y'), Closing('"')] == [k] + ([Inside('y')] + end);
    assert end + [] == end;
  }

  lemma MeaningOfNone(m: Meanings, f: Front)
    requires Python(m)
    ensures Meaning(m, [], f) == []
  {
  }

  /** A control character in a literal. */
  predicate RawControl(k: Token) {
    (k.Inside? || k.Pair?) && Control(k.c)
  }

  /** The escaped literals are free of control characters exactly when none stood behind a backslash:
      those are passed over as part of the pair. */
  lemma {:induction false} CleanIffNoPair(ts: seq<Token>)
    ensures (forall k :: k in Rewritten(ts) ==> !RawControl(k)) <==> (forall k :: k in ts && k.Pair? ==> !Control(k.c))
  {
    hide Rewritten, RawControl, Control;
    if ts == [] {
      RewrittenNothing();
    } else {
      CleanIffNoPair(ts[1..]);
      RewrittenCons(ts[0], ts[1..]);
      TokenClean(ts[0]);
      assert ts == [ts[0]] + ts[1..];
      assert forall k :: k in ts <==> k == ts[0] || k in ts[1..];
      assert forall k :: k in Rewritten(ts) <==> k in RewrittenToken(ts[0]) || k in Rewritten(ts[1..]);
    }
  }

  lemma TokenClean(k: Token)
    ensures (forall r :: r in RewrittenToken(k) ==> !RawControl(r)) <==> (k.Pair? ==> !Control(k.c))
  {
    assert k.Pair? ==> RewrittenToken(k) == [k] && k in RewrittenToken(k);
  }

  lemma EscapedIsClean(t: string)
    ensures (forall k :: k in Tokens(Escape(t, None), None) ==> !RawControl(k))
       <==> (forall k :: k in Tokens(t, None) && k.Pair? ==> !Control(k.c))
  {
    SameLiterals(t, None);
    CleanIffNoPair(Tokens(t, None));
  }

  /** A literal of a backslash with a newline behind it: nothing is rewritten, and the newline stays. */
  lemma NewlineBehindBackslash()
    ensures var t := "'\\\n'";
            Escape(t, None) == t && Tokens(t, None) == [Opening('\''), Pair('\n'), Closing('\'')]
  {
    assert Escape("\\\n'", Some('\'')) == "\\\n'";
    assert Tokens("\\\n'", Some('\'')) == [Pair('\n'), Closing('\'')];
  }
}
