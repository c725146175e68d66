/** LFM2's renaming of keyword arguments that are named like Python keywords, so that the call parses,
    and the restoring of their names in the decoded arguments. */
module Lfm2Keywords {
  import opened Strings
  import opened Dictionaries
  import opened Lfm2Escape
  import opened Lfm2Blocks

  const SUFFIX := "_pyreservedkw_"

  /** Python's `str.isalpha`, `str.isalnum` and `keyword.iskeyword`. */
  datatype Language = Language(alpha: char -> bool, alnum: char -> bool, keyword: string -> bool)

  /** Characters with a meaning of their own in a call. */
  predicate Sign(c: char) {
    Quote(c) || IsSpace(c) || c in "=(),\\"
  }

  ghost predicate Python(l: Language) {
    && (forall c :: l.alpha(c) ==> l.alnum(c))
    && (forall c :: l.alnum(c) ==> !Sign(c))
    && (forall c :: c in SUFFIX ==> Continues(l, c))
    && (forall w :: l.keyword(w) ==> !IsSuffix(SUFFIX, w))
  }

  predicate Starts(l: Language, c: char) {
    l.alpha(c) || c == '_'
  }

  predicate Continues(l: Language, c: char) {
    l.alnum(c) || c == '_'
  }

  /** How far a name reaches. */
  function NameLength(l: Language, t: string): (n: nat)
    ensures n <= |t|
    ensures forall k :: 0 <= k < n ==> Continues(l, t[k])
    ensures n < |t| ==> !Continues(l, t[n])
  {
    if t == "" || !Continues(l, t[0]) then 0 else 1 + NameLength(l, t[1..])
  }

  /** A keyword that names an argument: behind a bracket or comma, and in front of a single `=`. */
  predicate Reserved(l: Language, name: string, rest: string, last: Option<char>) {
    var u := StripLeft(rest);
    l.keyword(name) && u != "" && u[0] == '=' && !(|u| > 1 && u[1] == '=') && (last == Some('(') || last == Some(','))
  }

  /** The renamed text; `quote` is the literal that is open, `last` the last significant character. */
  function Rename(l: Language, t: string, quote: Option<char>, last: Option<char>): string
    decreases |t|
  {
    if t == "" then ""
    else if quote.Some? then
      if t[0] == '\\' && |t| > 1 then t[..2] + Rename(l, t[2..], quote, last)
      else [t[0]] + Rename(l, t[1..], if t[0] == quote.value then None else quote, last)
    else if Quote(t[0]) then [t[0]] + Rename(l, t[1..], Some(t[0]), Some(t[0]))
    else
      var n := NameLength(l, t);
      if Starts(l, t[0]) && n > 0 then
        (if Reserved(l, t[..n], t[n..], last) then t[..n] + SUFFIX else t[..n])
        + Rename(l, t[n..], None, Some(t[n - 1]))
      else [t[0]] + Rename(l, t[1..], None, if IsSpace(t[0]) then last else Some(t[0]))
  }

  lemma RenameStep(l: Language, s: string, i: nat, quote: Option<char>, last: Option<char>)
    requires i < |s|
    ensures var c, n := s[i], NameLength(l, s[i..]);
            Rename(l, s[i..], quote, last) ==
            if quote.Some? then
              if c == '\\' && i + 1 < |s| then [c] + [s[i + 1]] + Rename(l, s[i + 2..], quote, last)
              else [c] + Rename(l, s[i + 1..], if c == quote.value then None else quote, last)
            else if Quote(c) then [c] + Rename(l, s[i + 1..], Some(c), Some(c))
            else if Starts(l, c) && n > 0 then
              (if Reserved(l, s[i..i + n], s[i + n..], last) then s[i..i + n] + SUFFIX else s[i..i + n])
              + Rename(l, s[i + n..], None, Some(s[i + n - 1]))
            else [c] + Rename(l, s[i + 1..], None, if IsSpace(c) then last else Some(c))
  {
    hide Reserved, NameLength, Quote, IsSpace, Starts, Rename;
    var t, n := s[i..], NameLength(l, s[i..]);
    RenameFirst(l, t, quote, last);
    assert t[1..] == s[i + 1..] && t[n..] == s[i + n..] && t[..n] == s[i..i + n];
    if i + 1 < |s| {
      assert t[2..] == s[i + 2..] && t[..2] == [s[i]] + [s[i + 1]];
    }
  }

  lemma RenameFirst(l: Language, t: string, quote: Option<char>, last: Option<char>)
    requires t != ""
    ensures quote.Some? ==>
              Rename(l, t, quote, last) ==
              if t[0] == '\\' && |t| > 1 then t[..2] + Rename(l, t[2..], quote, last)
              else [t[0]] + Rename(l, t[1..], if t[0] == quote.value then None else quote, last)
    ensures quote.None? && Quote(t[0]) ==>
            Rename(l, t, quote, last) == [t[0]] + Rename(l, t[1..], Some(t[0]), Some(t[0]))
    ensures quote.None? && !Quote(t[0]) ==>
              var n := NameLength(l, t);
              Rename(l, t, quote, last) ==
              if Starts(l, t[0]) && n > 0 then
                (if Reserved(l, t[..n], t[n..], last) then t[..n] + SUFFIX else t[..n])
                  + Rename(l, t[n..], None, Some(t[n - 1]))
              else [t[0]] + Rename(l, t[1..], None, if IsSpace(t[0]) then last else Some(t[0]))
  {
    hide Reserved, NameLength, Quote, IsSpace, Starts;
  }

  /** The loop has written `out` for the text up to `index`. */
  ghost predicate SoFar(l: Language, text: string, out: string, changed: bool, index: nat, quote: Option<char>,
                        last: Option<char>)
  {
    && index <= |text|
    && out + Rename(l, text[index..], quote, last) == Rename(l, text, None, None)
    && if changed then |out| > index else out == text[..index]
  }

  /** One piece more is written, longer than what was read where a name has been renamed. */
  lemma WrittenMore(l: Language, text: string, out: string, changed: bool, index: nat, quote: Option<char>,
                    last: Option<char>, piece: string, longer: bool, end: nat, quote': Option<char>,
                    last': Option<char>)
    requires SoFar(l, text, out, changed, index, quote, last) && index <= end <= |text|
    requires Rename(l, text[index..], quote, last) == piece + Rename(l, text[end..], quote', last')
    requires if longer then |piece| > end - index else piece == text[index..end]
    ensures SoFar(l, text, out + piece, changed || longer, end, quote', last')
  {
    hide Rename;
    Assoc(out, piece, Rename(l, text[end..], quote', last'));
  }

  /** `_rename_reserved_kwargs`: the renamed text, and whether that is another text. */
  method RenameReservedKwargs(l: Language, text: string) returns (out: string, changed: bool)
    requires Python(l)
    ensures out == Rename(l, text, None, None) && (changed <==> out != text)
  {
    hide Rename, Reserved, IsSpace, NameLength, Starts, Python, Quote, SoFar;
    out, changed := "", false;
    var quote: Option<char>, lastSig: Option<char> := None, None;
    var index := 0;
    Begin(l, text);
    while index < |text|
      invariant index <= |text| && SoFar(l, text, out, changed, index, quote, lastSig)
    {
      var c := text[index];
      RenameStep(l, text, index, quote, lastSig);
      ghost var before, lastBefore := quote, lastSig;
      if quote.Some? {
        if c == '\\' && index + 1 < |text| {
          WrittenMore(l, text, out, changed, index, quote, lastSig,
                      [c] + [text[index + 1]], false, index + 2, quote, lastSig);
          out := out + ([c] + [text[index + 1]]);
          index := index + 2;
          continue;
        }
        if c == quote.value {
          quote := None;
        }
      } else if Quote(c) {
        quote, lastSig := Some(c), Some(c);
      } else if Starts(l, c) {
        var end := EndOfName(l, text, index);
        var name := text[index..end];
        var reserved := IsReserved(l, text, end, name, lastSig);
        var piece := if reserved then name + SUFFIX else name;
        lastSig := Some(text[end - 1]);
        WrittenMore(l, text, out, changed, index, quote, lastBefore, piece, reserved, end, quote, lastSig);
        out := out + piece;
        changed := changed || reserved;
        index := end;
        continue;
      } else if !IsSpace(c) {
        lastSig := Some(c);
      }
      WrittenMore(l, text, out, changed, index, before, lastBefore, [c], false, index + 1, quote, lastSig);
      out := out + [c];
      index := index + 1;
    }
    Finish(l, text, out, changed, quote, lastSig);
  }

  lemma Begin(l: Language, text: string)
    ensures SoFar(l, text, "", false, 0, None, None)
  {
    hide Rename;
    assert text[0..] == text;
    assert "" + Rename(l, text, None, None) == Rename(l, text, None, None);
  }

  lemma Finish(l: Language, text: string, out: string, changed: bool, quote: Option<char>, last: Option<char>)
    requires SoFar(l, text, out, changed, |text|, quote, last)
    ensures out == Rename(l, text, None, None) && (changed <==> out != text)
  {
    hide Rename;
    RenameNothing(l, quote, last);
    assert text[|text|..] == "" && text[..|text|] == text && out + "" == out;
  }

  lemma RenameNothing(l: Language, quote: Option<char>, last: Option<char>)
    ensures Rename(l, "", quote, last) == ""
  {
  }

  method EndOfName(l: Language, text: string, index: nat) returns (end: nat)
    requires index < |text| && Python(l) && Starts(l, text[index])
    ensures end == index + NameLength(l, text[index..]) && index < end <= |text|
  {
    end := index;
    while end < |text| && Continues(l, text[end])
      invariant index <= end <= |text|
      invariant end - index + NameLength(l, text[end..]) == NameLength(l, text[index..])
    {
      assert text[end..][0] == text[end] && text[end..][1..] == text[end + 1..];
      end := end + 1;
    }
    assert end < |text| ==> text[end..][0] == text[end];
    assert text[index..][0] == text[index];
  }

  method IsReserved(l: Language, text: string, end: nat, name: string, last: Option<char>) returns (r: bool)
    requires end <= |text|
    ensures r == Reserved(l, name, text[end..], last)
  {
    hide IsSpace;
    var look := end;
    while look < |text| && IsSpace(text[look])
      invariant end <= look <= |text| && StripLeft(text[look..]) == StripLeft(text[end..])
    {
      assert text[look..][0] == text[look] && text[look..][1..] == text[look + 1..];
      look := look + 1;
    }
    assert look < |text| ==> text[look..][0] == text[look];
    assert StripLeft(text[look..]) == text[look..];
    return l.keyword(name) && look < |text| && text[look] == '=' && (look + 1 >= |text| || text[look + 1] != '=')
        && (last == Some('(') || last == Some(','));
  }

  /** A keyword and the suffix. */
  predicate Marked(l: Language, key: string) {
    IsSuffix(SUFFIX, key) && l.keyword(key[..|key| - |SUFFIX|])
  }

  /** `_restore_reserved_kwarg_names` on one name. */
  function Restored(l: Language, key: string): string {
    if Marked(l, key) then key[..|key| - |SUFFIX|] else key
  }

  function Renamed(l: Language, key: string): string {
    if l.keyword(key) then key + SUFFIX else key
  }

  function MapKeys<V>(f: string -> string, d: Entries<V>): (r: Entries<V>)
    ensures |r| == |d| && forall i :: 0 <= i < |d| ==> r[i] == Entry(f(d[i].key), d[i].value)
  {
    seq(|d|, i requires 0 <= i < |d| => Entry(f(d[i].key), d[i].value))
  }

  function RestoredArguments<V>(l: Language, d: Entries<V>): Entries<V> {
    PutAll([], MapKeys(k => Restored(l, k), d))
  }

  method RestoreReservedKwargNames<V>(l: Language, arguments: Entries<V>) returns (restored: Entries<V>)
    ensures restored == RestoredArguments(l, arguments)
  {
    restored := [];
    ghost var all := MapKeys(k => Restored(l, k), arguments);
    assert all[0..] == all;
    for k := 0 to |arguments|
      invariant PutAll(restored, all[k..]) == PutAll([], all)
    {
      var Entry(key, value) := arguments[k];
      assert all[k..][0] == Entry(Restored(l, key), value) && all[k..][1..] == all[k + 1..];
      if IsSuffix(SUFFIX, key) && l.keyword(key[..|key| - |SUFFIX|]) {
        restored := Put(restored, key[..|key| - |SUFFIX|], value);
      } else {
        restored := Put(restored, key, value);
      }
    }
    assert all[|arguments|..] == [];
  }

  /** The name of an argument is one that renaming could have made. */
  ghost predicate CouldBeMade(l: Language, key: string) {
    exists k :: l.keyword(k) && key == k + "_pyreservedkw_"
  }

  lemma MarkedIsMade(l: Language, key: string)
    ensures Marked(l, key) <==> CouldBeMade(l, key)
    ensures forall k :: l.keyword(k) && key == k + "_pyreservedkw_" ==> Restored(l, key) == k
  {
    if Marked(l, key) {
      var k := key[..|key| - |SUFFIX|];
      assert key == k + SUFFIX && l.keyword(k);
    }
    forall k | l.keyword(k) && key == k + "_pyreservedkw_" ensures Marked(l, key) && Restored(l, key) == k {
      assert key[|key| - |SUFFIX|..] == SUFFIX && key[..|key| - |SUFFIX|] == k;
    }
  }

  lemma KeyComesBack(l: Language, key: string)
    requires Python(l)
    ensures Restored(l, Renamed(l, key)) == key <==> !CouldBeMade(l, key)
    ensures Renamed(l, Renamed(l, key)) == Renamed(l, key) && !l.keyword(Renamed(l, key))
  {
    MarkedIsMade(l, key);
    if l.keyword(key) {
      var w := key + SUFFIX;
      assert w[|w| - |SUFFIX|..] == SUFFIX && w[..|w| - |SUFFIX|] == key;
      assert IsSuffix(SUFFIX, w);
    }
  }

  /** Restoring undoes renaming exactly when no argument has a name that renaming could have made. */
  lemma RestoreUndoesRename<V>(l: Language, d: Entries<V>)
    requires Python(l) && DistinctKeys(d)
    ensures RestoredArguments(l, MapKeys(k => Renamed(l, k), d)) == d <==>
            forall i :: 0 <= i < |d| ==> !CouldBeMade(l, d[i].key)
  {
    hide CouldBeMade, Renamed, Restored, PutAll, DistinctKeys;
    var back := MapKeys(k => Restored(l, k), MapKeys(k => Renamed(l, k), d));
    forall i | 0 <= i < |d| ensures back[i].key == d[i].key <==> !CouldBeMade(l, d[i].key) {
      KeyComesBack(l, d[i].key);
    }
    if forall i :: 0 <= i < |d| ==> !CouldBeMade(l, d[i].key) {
      assert back == d;
      DictIsAsWritten(d);
    } else {
      var i :| 0 <= i < |d| && CouldBeMade(l, d[i].key);
      assert back[i] != d[i];
      SizeDecides(back);
    }
  }

  /** An argument that is called `from` and the suffix comes back as `from`. */
  lemma MarkedNameIsLost<V>(l: Language, v: V)
    requires Python(l) && l.keyword("from")
    ensures var d := [Entry("from" + "_pyreservedkw_", v)];
            MapKeys(k => Renamed(l, k), d) == d && RestoredArguments(l, d) == [Entry("from", v)]
  {
    hide Restored, Renamed;
    var key := "from" + SUFFIX;
    MarkedIsMade(l, key);
    KeyComesBack(l, "from");
    KeywordRenamed(l, "from");
    var back := MapKeys(k => Restored(l, k), [Entry(key, v)]);
    assert back == [Entry("from", v)];
    DictIsAsWritten(back);
  }

  lemma KeywordRenamed(l: Language, key: string)
    requires l.keyword(key)
    ensures Renamed(l, key) == key + "_pyreservedkw_"
  {
  }

  /** The pieces of a text: string literals, one that is not closed and runs to the end, names and words,
      and single characters. */
  datatype Piece =
    | Quoted(quote: char, units: seq<Unit>) | Unclosed(quote: char, body: string) | Word(name: string) | Mark(c: char)

  /** The text is inside a literal to its end. */
  predicate StaysOpen(t: string, quote: char)
    decreases |t|
  {
    t == "" || (if t[0] == '\\' && |t| > 1 then StaysOpen(t[2..], quote) else t[0] != quote && StaysOpen(t[1..], quote))
  }

  function PieceText(k: Piece): string {
    match k
    case Quoted(quote, units) => [quote] + (UnitsText(units) + [quote])
    case Unclosed(quote, body) => [quote] + body
    case Word(name) => name
    case Mark(c) => [c]
  }

  function Text(ts: seq<Piece>): string {
    if ts == [] then "" else PieceText(ts[0]) + Text(ts[1..])
  }

  predicate IsName(l: Language, name: string) {
    name != "" && (l.alpha(name[0]) || name[0] == '_') && forall c :: c in name ==> l.alnum(c) || c == '_'
  }

  predicate IsQuote(c: char) {
    c == '\'' || c == '"'
  }

  predicate PieceRight(l: Language, k: Piece) {
    match k
    case Quoted(quote, units) => IsQuote(quote) && forall u :: u in units && u.One? ==> u.c != quote && u.c != '\\'
    case Unclosed(quote, body) => IsQuote(quote) && StaysOpen(body, quote)
    case Word(name) => IsName(l, name)
    case Mark(c) => !IsQuote(c) && !l.alpha(c) && c != '_'
  }

  /** The pieces go on with a character that a name may hold. */
  predicate GoesOn(l: Language, ts: seq<Piece>) {
    ts != [] && (ts[0].Word? || (ts[0].Mark? && Continues(l, ts[0].c)))
  }

  /** Pieces as a scan from the left cuts them. */
  predicate Lexes(l: Language, ts: seq<Piece>) {
    ts == [] ||
    (PieceRight(l, ts[0]) && (ts[0].Word? ==> !GoesOn(l, ts[1..])) && (ts[0].Unclosed? ==> |ts| == 1)
      && Lexes(l, ts[1..]))
  }

  function BlanksSkipped(ts: seq<Piece>): (r: seq<Piece>)
    ensures |r| <= |ts|
  {
    if ts != [] && ts[0].Mark? && IsSpace(ts[0].c) then BlanksSkipped(ts[1..]) else ts
  }

  /** What stands in front of these pieces, behind `last`, names an argument. */
  predicate NamesArgument(ts: seq<Piece>, last: Option<char>) {
    var u := BlanksSkipped(ts);
    u != [] && u[0] == Mark('=') && !(|u| > 1 && u[1] == Mark('=')) && (last == Some('(') || last == Some(','))
  }

  function LastOf(k: Piece, last: Option<char>): Option<char> {
    match k
    case Quoted(quote, _) => Some(quote)
    case Unclosed(quote, _) => Some(quote)
    case Word(name) => if name == "" then last else Some(name[|name| - 1])
    case Mark(c) => if IsSpace(c) then last else Some(c)
  }

  function RenamedPiece(l: Language, k: Piece, rest: seq<Piece>, last: Option<char>): Piece {
    if k.Word? && l.keyword(k.name) && NamesArgument(rest, last) then Word(k.name + SUFFIX) else k
  }

  function RenamedPieces(l: Language, ts: seq<Piece>, last: Option<char>): (r: seq<Piece>)
    ensures |r| == |ts|
  {
    if ts == [] then []
    else [RenamedPiece(l, ts[0], ts[1..], last)] + RenamedPieces(l, ts[1..], LastOf(ts[0], last))
  }

  lemma {:induction false} NameEnds(l: Language, name: string, rest: string)
    requires (forall c :: c in name ==> Continues(l, c)) && (rest != "" ==> !Continues(l, rest[0]))
    ensures NameLength(l, name + rest) == |name|
  {
    if name == "" {
      assert name + rest == rest;
    } else {
      assert (name + rest)[0] == name[0] && name[0] in name && (name + rest)[1..] == name[1..] + rest;
      assert forall c :: c in name[1..] ==> c in name;
      NameEnds(l, name[1..], rest);
    }
  }

  lemma UnitKept(l: Language, quote: char, u: Unit, more: string, last: Option<char>)
    requires u.One? ==> u.c != quote && u.c != '\\'
    ensures Rename(l, UnitText(u) + more, Some(quote), last) == UnitText(u) + Rename(l, more, Some(quote), last)
  {
    hide Reserved, NameLength, IsSpace;
    var t := UnitText(u) + more;
    assert t[|UnitText(u)|..] == more && t[..|UnitText(u)|] == UnitText(u);
  }

  lemma QuoteTaken(l: Language, quote: char, rest: string, last: Option<char>)
    requires Quote(quote)
    ensures Rename(l, [quote] + rest, Some(quote), last) == [quote] + Rename(l, rest, None, last)
  {
    hide Reserved, NameLength, IsSpace;
    assert ([quote] + rest)[1..] == rest;
  }

  /** The scan goes through a literal and leaves it as it is. */
  lemma {:induction false} LiteralKept(l: Language, quote: char, units: seq<Unit>, rest: string, last: Option<char>)
    requires Quote(quote) && forall u :: u in units && u.One? ==> u.c != quote && u.c != '\\'
    ensures Rename(l, UnitsText(units) + ([quote] + rest), Some(quote), last) ==
            UnitsText(units) + ([quote] + Rename(l, rest, None, last))
    decreases |units|
  {
    hide Rename;
    QuoteTaken(l, quote, rest, last);
    if units == [] {
      assert "" + ([quote] + rest) == [quote] + rest;
      assert "" + ([quote] + Rename(l, rest, None, last)) == [quote] + Rename(l, rest, None, last);
    } else {
      var u, more := units[0], UnitsText(units[1..]);
      assert u in units && forall x :: x in units[1..] ==> x in units;
      LiteralKept(l, quote, units[1..], rest, last);
      UnitKept(l, quote, u, more + ([quote] + rest), last);
      Assoc(UnitText(u), more, [quote] + rest);
      Assoc(UnitText(u), more, [quote] + Rename(l, rest, None, last));
    }
  }

  lemma {:induction false} BlanksOfText(l: Language, ts: seq<Piece>)
    requires Python(l) && Lexes(l, ts)
    ensures StripLeft(Text(ts)) == Text(BlanksSkipped(ts)) && Lexes(l, BlanksSkipped(ts))
    decreases |ts|
  {
    hide IsSpace;
    if ts != [] {
      TextOpens(l, ts);
      if ts[0].Mark? && IsSpace(ts[0].c) {
        BlanksOfText(l, ts[1..]);
        assert Text(ts)[1..] == Text(ts[1..]);
      }
    }
  }

  /** A text's first character tells what piece it starts with. */
  lemma TextOpens(l: Language, ts: seq<Piece>)
    requires Python(l) && Lexes(l, ts) && ts != []
    ensures Text(ts) != ""
    ensures Text(ts)[0] == '=' <==> ts[0] == Mark('=')
    ensures IsSpace(Text(ts)[0]) <==> ts[0].Mark? && IsSpace(ts[0].c)
    ensures Continues(l, Text(ts)[0]) <==> GoesOn(l, ts)
  {
    UnderscoreIsNoSign();
    if ts[0].Word? {
      assert ts[0].name[0] in ts[0].name;
    }
  }

  lemma UnderscoreIsNoSign()
    ensures !Sign('_') && !Sign('a') && forall c :: Quote(c) ==> Sign(c) && !IsSpace(c) && c != '=' && c != '_'
  {
  }

  lemma ReservedPieces(l: Language, name: string, ts: seq<Piece>, last: Option<char>)
    requires Python(l) && Lexes(l, ts)
    ensures Reserved(l, name, Text(ts), last) <==> l.keyword(name) && NamesArgument(ts, last)
  {
    hide IsSpace, PieceRight, GoesOn, Python;
    BlanksOfText(l, ts);
    var u := BlanksSkipped(ts);
    if u != [] {
      TextOpens(l, u);
      if u[0] == Mark('=') {
        assert Text(u)[1..] == Text(u[1..]);
        if |u| > 1 {
          TextOpens(l, u[1..]);
        }
      }
    }
  }

  /** On a text made of pieces, exactly the names of arguments that are keywords are changed. */
  lemma {:induction false} RenameIsByPiece(l: Language, ts: seq<Piece>, last: Option<char>)
    requires Python(l) && Lexes(l, ts)
    ensures Rename(l, Text(ts), None, last) == Text(RenamedPieces(l, ts, last))
    decreases |ts|
  {
    hide Reserved, NamesArgument, NameLength, IsSpace, GoesOn, Continues, Starts, Python, Rename;
    if ts == [] {
      RenameNothing(l, None, last);
    } else {
      var k, rest := ts[0], Text(ts[1..]);
      var renamed := RenamedPieces(l, ts, last);
      RenameIsByPiece(l, ts[1..], LastOf(k, last));
      assert renamed[1..] == RenamedPieces(l, ts[1..], LastOf(k, last));
      match k
      case Quoted(quote, units) => QuotedTaken(l, quote, units, rest, last);
      case Unclosed(quote, body) =>
        assert PieceText(k) + "" == PieceText(k);
        UnclosedTaken(l, quote, body, last);
      case Word(name) => WordTaken(l, name, ts[1..], last);
      case Mark(c) => MarkTaken(l, c, rest, last);
    }
  }

  lemma QuoteOpens(l: Language, quote: char, rest: string, last: Option<char>)
    requires Quote(quote)
    ensures Rename(l, [quote] + rest, None, last) == [quote] + Rename(l, rest, Some(quote), Some(quote))
  {
    hide Reserved, NameLength, IsSpace;
    assert ([quote] + rest)[1..] == rest;
  }

  lemma QuotedTaken(l: Language, quote: char, units: seq<Unit>, rest: string, last: Option<char>)
    requires PieceRight(l, Quoted(quote, units))
    ensures Rename(l, PieceText(Quoted(quote, units)) + rest, None, last) ==
            PieceText(Quoted(quote, units)) + Rename(l, rest, None, Some(quote))
  {
    hide Rename, UnitsText;
    var inside, later := UnitsText(units), Rename(l, rest, None, Some(quote));
    LiteralKept(l, quote, units, rest, Some(quote));
    QuoteOpens(l, quote, inside + ([quote] + rest), last);
    assert PieceText(Quoted(quote, units)) + rest == [quote] + (inside + ([quote] + rest));
    assert PieceText(Quoted(quote, units)) + later == [quote] + (inside + ([quote] + later));
  }

  lemma {:induction false} OpenKept(l: Language, quote: char, body: string, last: Option<char>)
    requires StaysOpen(body, quote)
    ensures Rename(l, body, Some(quote), last) == body
    decreases |body|
  {
    hide Reserved, NameLength, IsSpace;
    if body != "" {
      if body[0] == '\\' && |body| > 1 {
        OpenKept(l, quote, body[2..], last);
      } else {
        OpenKept(l, quote, body[1..], last);
      }
    }
  }

  lemma UnclosedTaken(l: Language, quote: char, body: string, last: Option<char>)
    requires PieceRight(l, Unclosed(quote, body))
    ensures Rename(l, [quote] + body, None, last) == [quote] + body
  {
    hide Rename;
    QuoteOpens(l, quote, body, last);
    OpenKept(l, quote, body, Some(quote));
  }

  lemma WordTaken(l: Language, name: string, ts: seq<Piece>, last: Option<char>)
    requires Python(l) && IsName(l, name) && Lexes(l, ts) && !GoesOn(l, ts)
    ensures Rename(l, name + Text(ts), None, last) ==
            PieceText(RenamedPiece(l, Word(name), ts, last)) + Rename(l, Text(ts), None, LastOf(Word(name), last))
  {
    hide Reserved, NamesArgument, NameLength, IsSpace, GoesOn, Text;
    var t := name + Text(ts);
    if ts != [] {
      TextOpens(l, ts);
    } else {
      NoText();
    }
    NameEnds(l, name, Text(ts));
    NameIsNoQuote(l, name);
    assert t[0] == name[0] && t[..|name|] == name && t[|name|..] == Text(ts);
    ReservedPieces(l, name, ts, last);
  }

  lemma NoText()
    ensures Text([]) == ""
  {
  }

  lemma NameIsNoQuote(l: Language, name: string)
    requires Python(l) && IsName(l, name)
    ensures !Quote(name[0])
  {
    UnderscoreIsNoSign();
    assert name[0] in name;
  }

  lemma MarkTaken(l: Language, c: char, rest: string, last: Option<char>)
    requires PieceRight(l, Mark(c))
    ensures Rename(l, [c] + rest, None, last) == [c] + Rename(l, rest, None, LastOf(Mark(c), last))
  {
    hide Reserved, NameLength, IsSpace;
    assert ([c] + rest)[1..] == rest;
  }

  lemma UnitFirst(u: Unit, units: seq<Unit>, more: string, t: string)
    requires t == UnitText(u) + (UnitsText(units) + more)
    ensures t == UnitsText([u] + units) + more
  {
    assert ([u] + units)[1..] == units;
    Assoc(UnitText(u), UnitsText(units), more);
  }

  /** A literal that is closed, and the text behind it. */
  lemma {:induction false} LiteralCloses(t: string, quote: char) returns (units: seq<Unit>, rest: string)
    requires Quote(quote) && !StaysOpen(t, quote)
    ensures t == UnitsText(units) + ([quote] + rest)
    ensures forall u :: u in units && u.One? ==> u.c != quote && u.c != '\\'
    decreases |t|
  {
    hide UnitsText;
    if t[0] != '\\' && t[0] == quote {
      units, rest := [], t[1..];
      NoUnits(t);
    } else {
      var u := if t[0] == '\\' && |t| > 1 then Escaped(t[1]) else One(t[0]);
      var more := t[|UnitText(u)|..];
      assert t == UnitText(u) + more;
      units, rest := LiteralCloses(more, quote);
      UnitFirst(u, units, [quote] + rest, t);
      units := [u] + units;
    }
  }

  lemma NoUnits(t: string)
    requires t != ""
    ensures t == UnitsText([]) + ([t[0]] + t[1..])
  {
  }

  /** Every text is made of pieces. */
  lemma {:induction false} EveryTextLexes(l: Language, t: string) returns (ts: seq<Piece>)
    requires Python(l)
    ensures Lexes(l, ts) && Text(ts) == t
    decreases |t|
  {
    hide StaysOpen, IsSpace;
    if t == "" {
      return [];
    }
    var k, rest: string := Mark(t[0]), t[1..];
    if Quote(t[0]) {
      if StaysOpen(t[1..], t[0]) {
        k, rest := Unclosed(t[0], t[1..]), "";
      } else {
        var units, behind := LiteralCloses(t[1..], t[0]);
        k, rest := Quoted(t[0], units), behind;
      }
    } else if Starts(l, t[0]) {
      var n := NameLength(l, t);
      k, rest := Word(t[..n]), t[n..];
    }
    assert t == PieceText(k) + rest;
    PieceTaken(l, t, k);
    ts := EveryTextLexes(l, rest);
    if ts != [] {
      TextOpens(l, ts);
    }
    assert ([k] + ts)[1..] == ts;
    ts := [k] + ts;
  }

  lemma PieceTaken(l: Language, t: string, k: Piece)
    requires Python(l) && t != "" && PieceText(k) <= t
    requires Quote(t[0]) ==> PieceRight(l, k)
    requires !Quote(t[0]) ==> k == if Starts(l, t[0]) then Word(t[..NameLength(l, t)]) else Mark(t[0])
    ensures PieceRight(l, k) && PieceText(k) != ""
  {
  }

  /** Renaming once more changes nothing. */
  lemma RenameTwice(l: Language, t: string)
    requires Python(l)
    ensures var once := Rename(l, t, None, None); Rename(l, once, None, None) == once
  {
    hide Rename, Lexes, RenamedPieces, Python;
    var ts := EveryTextLexes(l, t);
    RenameIsByPiece(l, ts, None);
    RenamedLexes(l, ts, None);
    RenameIsByPiece(l, RenamedPieces(l, ts, None), None);
  }

  lemma {:induction false} SameBlanks(l: Language, ts: seq<Piece>, last: Option<char>)
    ensures var u, v := BlanksSkipped(ts), BlanksSkipped(RenamedPieces(l, ts, last));
            && |u| == |v| && (u != [] ==> (u[0] == Mark('=') <==> v[0] == Mark('=')))
            && (|u| > 1 ==> (u[1] == Mark('=') <==> v[1] == Mark('=')))
    decreases |ts|
  {
    hide NamesArgument, IsSpace;
    if ts != [] {
      var r := RenamedPieces(l, ts, last);
      assert r[1..] == RenamedPieces(l, ts[1..], LastOf(ts[0], last));
      SameBlanks(l, ts[1..], LastOf(ts[0], last));
    }
  }

  predicate BeforeArgument(last: Option<char>) {
    last == Some('(') || last == Some(',')
  }

  /** Of the last character only matters whether an argument may follow it. */
  lemma {:induction false} LastAlike(l: Language, ts: seq<Piece>, last: Option<char>, other: Option<char>)
    requires BeforeArgument(last) == BeforeArgument(other)
    ensures RenamedPieces(l, ts, last) == RenamedPieces(l, ts, other)
    decreases |ts|
  {
    hide BlanksSkipped, IsSpace;
    if ts != [] {
      LastAlike(l, ts[1..], LastOf(ts[0], last), LastOf(ts[0], other));
    }
  }

  lemma {:induction false} RenamedLexes(l: Language, ts: seq<Piece>, last: Option<char>)
    requires Python(l) && Lexes(l, ts)
    ensures var r := RenamedPieces(l, ts, last);
            Lexes(l, r) && RenamedPieces(l, r, last) == r && (GoesOn(l, r) <==> GoesOn(l, ts))
    decreases |ts|
  {
    hide NamesArgument, IsSpace, PieceRight, BeforeArgument, LastOf, Continues, Python;
    if ts != [] {
      var r, next := RenamedPieces(l, ts, last), LastOf(ts[0], last);
      assert r[1..] == RenamedPieces(l, ts[1..], next);
      RenamedLexes(l, ts[1..], next);
      PieceStaysRight(l, ts[0], ts[1..], last);
      PieceStays(l, ts[0], ts[1..], last);
      LastAlike(l, r[1..], LastOf(r[0], last), next);
    }
  }

  lemma PieceStaysRight(l: Language, k: Piece, rest: seq<Piece>, last: Option<char>)
    requires Python(l) && PieceRight(l, k)
    ensures PieceRight(l, RenamedPiece(l, k, rest, last))
    ensures k.Word? == RenamedPiece(l, k, rest, last).Word? && (!k.Word? ==> RenamedPiece(l, k, rest, last) == k)
  {
    hide NamesArgument;
    if k.Word? {
      assert (k.name + SUFFIX)[0] == k.name[0];
      assert forall c :: c in k.name + SUFFIX ==> c in k.name || c in SUFFIX;
    }
  }

  lemma PieceStays(l: Language, k: Piece, rest: seq<Piece>, last: Option<char>)
    requires Python(l) && PieceRight(l, k)
    ensures var r := RenamedPiece(l, k, rest, last);
            && RenamedPiece(l, r, RenamedPieces(l, rest, LastOf(k, last)), last) == r
            && BeforeArgument(LastOf(r, last)) == BeforeArgument(LastOf(k, last))
  {
    hide IsSpace;
    SameBlanks(l, rest, LastOf(k, last));
    if k.Word? {
      var w := k.name + SUFFIX;
      assert w[|w| - |SUFFIX|..] == SUFFIX;
      UnderscoreIsNoSign();
      assert k.name[|k.name| - 1] in k.name && w[|w| - 1] == '_';
    }
  }

  /** An argument as written: the blanks in front, its name, and its value. */
  datatype Arg = Arg(gap: string, key: string, value: seq<Piece>)

  function Marks(s: string): seq<Piece> {
    seq(|s|, i requires 0 <= i < |s| => Mark(s[i]))
  }

  function ArgPieces(a: Arg): seq<Piece> {
    [Word(a.key), Mark('=')] + a.value
  }

  /** The arguments behind an opening bracket or a comma, and the closing bracket. */
  function ArgsPieces(args: seq<Arg>): seq<Piece> {
    if args == [] then [Mark(')')]
    else
      Marks(args[0].gap)
      + (ArgPieces(args[0]) + (if |args| == 1 then [Mark(')')] else [Mark(',')] + ArgsPieces(args[1..])))
  }

  function CallPieces(f: string, args: seq<Arg>): seq<Piece> {
    [Word(f), Mark('(')] + ArgsPieces(args)
  }

  /** Values may be any pieces in which no argument of a reserved name stands, of a call inside. */
  predicate ArgRight(l: Language, a: Arg) {
    && (forall c :: c in a.gap ==> IsSpace(c)) && IsName(l, a.key)
    && Lexes(l, a.value) && (forall k :: k in a.value ==> !k.Unclosed?) && a.value != [] && a.value[0] != Mark('=')
    && RenamedPieces(l, a.value, Some('=')) == a.value
  }

  function RenamedArgs(l: Language, args: seq<Arg>): (r: seq<Arg>)
    ensures |r| == |args| && forall i :: 0 <= i < |args| ==> r[i] == args[i].(key := Renamed(l, args[i].key))
  {
    seq(|args|, i requires 0 <= i < |args| => args[i].(key := Renamed(l, args[i].key)))
  }

  /** The piece ends a value. */
  predicate Ends(k: Piece) {
    k == Mark(',') || k == Mark(')')
  }

  lemma EndsNoBlank()
    ensures !IsSpace(',') && !IsSpace(')')
  {
  }

  lemma {:induction false} BlanksUpTo(v: seq<Piece>, rest: seq<Piece>)
    requires rest != [] && Ends(rest[0])
    ensures BlanksSkipped(v + rest) == BlanksSkipped(v) + rest
    decreases |v|
  {
    hide IsSpace;
    if v == [] {
      assert v + rest == rest && BlanksSkipped(v) + rest == rest;
      EndsNoBlank();
    } else {
      assert (v + rest)[0] == v[0] && (v + rest)[1..] == v[1..] + rest;
      BlanksUpTo(v[1..], rest);
    }
  }

  /** Renaming in a value does not depend on what stands behind it. */
  lemma {:induction false} RenamedValue(l: Language, v: seq<Piece>, rest: seq<Piece>, last: Option<char>)
    requires rest != [] && Ends(rest[0])
    ensures exists after: Option<char> ::
              RenamedPieces(l, v + rest, last) == RenamedPieces(l, v, last) + RenamedPieces(l, rest, after)
    decreases |v|
  {
    hide IsSpace, BlanksSkipped, LastOf;
    if v == [] {
      assert v + rest == rest;
      assert RenamedPieces(l, v + rest, last) == RenamedPieces(l, v, last) + RenamedPieces(l, rest, last);
    } else {
      assert (v + rest)[0] == v[0] && (v + rest)[1..] == v[1..] + rest;
      BlanksUpTo(v[1..], rest);
      var next := LastOf(v[0], last);
      RenamedValue(l, v[1..], rest, next);
      var after: Option<char> :|
        RenamedPieces(l, v[1..] + rest, next) == RenamedPieces(l, v[1..], next) + RenamedPieces(l, rest, after);
      assert RenamedPieces(l, v + rest, last) == RenamedPieces(l, v, last) + RenamedPieces(l, rest, after);
    }
  }

  lemma {:induction false} LexesTogether(l: Language, v: seq<Piece>, rest: seq<Piece>)
    requires Python(l) && Lexes(l, v) && Lexes(l, rest) && rest != [] && Ends(rest[0])
    requires forall k :: k in v ==> !k.Unclosed?
    ensures Lexes(l, v + rest)
    decreases |v|
  {
    hide PieceRight;
    if v == [] {
      assert v + rest == rest;
    } else {
      assert (v + rest)[0] == v[0] && (v + rest)[1..] == v[1..] + rest;
      assert v[0] in v && forall k :: k in v[1..] ==> k in v;
      LexesTogether(l, v[1..], rest);
      SignsGoOn(l);
    }
  }

  lemma SignsGoOn(l: Language)
    requires Python(l)
    ensures forall c :: c in "=(),\\" || IsSpace(c) ==> !Continues(l, c) && PieceRight(l, Mark(c))
  {
    UnderscoreIsNoSign();
  }

  lemma {:induction false} GapPassed(l: Language, gap: string, ts: seq<Piece>, last: Option<char>)
    requires Python(l) && (forall c :: c in gap ==> IsSpace(c)) && Lexes(l, ts)
    ensures RenamedPieces(l, Marks(gap) + ts, last) == Marks(gap) + RenamedPieces(l, ts, last)
    ensures Lexes(l, Marks(gap) + ts)
    decreases |gap|
  {
    hide Lexes, RenamedPieces, IsSpace, Python, Continues, PieceRight;
    if gap == "" {
      assert Marks(gap) + ts == ts && Marks(gap) + RenamedPieces(l, ts, last) == RenamedPieces(l, ts, last);
    } else {
      assert gap[0] in gap && forall c :: c in gap[1..] ==> c in gap;
      GapPassed(l, gap[1..], ts, last);
      SignsGoOn(l);
      PieceFirst(l, Mark(gap[0]), Marks(gap[1..]) + ts, last);
      assert Marks(gap) == [Mark(gap[0])] + Marks(gap[1..]);
      assert [Mark(gap[0])] + (Marks(gap[1..]) + ts) == Marks(gap) + ts;
      assert [Mark(gap[0])] + (Marks(gap[1..]) + RenamedPieces(l, ts, last)) == Marks(gap) + RenamedPieces(l, ts, last);
    }
  }

  /** The name of an argument is renamed where it is a keyword, and its value stays. */
  lemma ArgRenamed(l: Language, a: Arg, rest: seq<Piece>, last: Option<char>)
    requires Python(l) && ArgRight(l, a) && BeforeArgument(last)
    requires rest != [] && Ends(rest[0]) && Lexes(l, rest)
    ensures Lexes(l, ArgPieces(a) + rest)
    ensures exists after: Option<char> ::
              RenamedPieces(l, ArgPieces(a) + rest, last) ==
              ArgPieces(a.(key := Renamed(l, a.key))) + RenamedPieces(l, rest, after)
  {
    hide RenamedPieces, Lexes;
    LexesTogether(l, a.value, rest);
    RenamedValue(l, a.value, rest, Some('='));
    var after: Option<char> :|
      RenamedPieces(l, a.value + rest, Some('=')) == RenamedPieces(l, a.value, Some('='))
        + RenamedPieces(l, rest, after);
    NameAndSign(l, a.key, a.value + rest, last);
    assert ArgPieces(a) + rest == [Word(a.key), Mark('=')] + (a.value + rest);
    assert ArgPieces(a.(key := Renamed(l, a.key))) + RenamedPieces(l, rest, after)
        == [Word(Renamed(l, a.key)), Mark('=')] + (a.value + RenamedPieces(l, rest, after));
  }

  lemma PieceFirst(l: Language, k: Piece, ts: seq<Piece>, last: Option<char>)
    ensures RenamedPieces(l, [k] + ts, last) == [RenamedPiece(l, k, ts, last)] + RenamedPieces(l, ts, LastOf(k, last))
    ensures PieceRight(l, k) && Lexes(l, ts) && !k.Unclosed? && (k.Word? ==> !GoesOn(l, ts)) ==> Lexes(l, [k] + ts)
  {
    hide RenamedPiece, LastOf, PieceRight, GoesOn;
    assert ([k] + ts)[1..] == ts;
  }

  lemma NameAndSign(l: Language, key: string, ts: seq<Piece>, last: Option<char>)
    requires Python(l) && IsName(l, key) && BeforeArgument(last) && Lexes(l, ts) && ts != [] && ts[0] != Mark('=')
    ensures Lexes(l, [Word(key), Mark('=')] + ts)
    ensures RenamedPieces(l, [Word(key), Mark('=')] + ts, last) ==
            [Word(Renamed(l, key)), Mark('=')] + RenamedPieces(l, ts, Some('='))
  {
    hide IsName, Lexes, RenamedPieces, Python, Continues;
    SignsGoOn(l);
    PieceFirst(l, Mark('='), ts, LastOf(Word(key), last));
    PieceFirst(l, Word(key), [Mark('=')] + ts, last);
    assert [Word(key)] + ([Mark('=')] + ts) == [Word(key), Mark('=')] + ts;
    assert ([Mark('=')] + ts)[1..] == ts;
    assert [Word(Renamed(l, key))] + ([Mark('=')] + RenamedPieces(l, ts, Some('=')))
        == [Word(Renamed(l, key)), Mark('=')] + RenamedPieces(l, ts, Some('='));
  }

  lemma {:induction false} ArgsRenamed(l: Language, args: seq<Arg>, last: Option<char>)
    requires Python(l) && BeforeArgument(last) && forall a :: a in args ==> ArgRight(l, a)
    ensures Lexes(l, ArgsPieces(args)) && RenamedPieces(l, ArgsPieces(args), last) == ArgsPieces(RenamedArgs(l, args))
    decreases |args|
  {
    hide ArgRight, ArgPieces, Lexes, RenamedPieces, Python;
    if args == [] {
      EndRenamed(l, last);
    } else {
      var a, r := args[0], RenamedArgs(l, args);
      assert a in args && forall x :: x in args[1..] ==> x in args;
      assert r[1..] == RenamedArgs(l, args[1..]);
      var rest := if |args| == 1 then [Mark(')')] else [Mark(',')] + ArgsPieces(args[1..]);
      ArgsRenamed(l, args[1..], Some(','));
      forall other ensures RenamedPieces(l, rest, other) ==
                           if |args| == 1 then [Mark(')')] else [Mark(',')] + ArgsPieces(r[1..]) {
        EndRenamed(l, other);
        CommaRenamed(l, ArgsPieces(args[1..]), other);
      }
      EndRenamed(l, None);
      CommaRenamed(l, ArgsPieces(args[1..]), None);
      ArgRenamed(l, a, rest, last);
      GapOfArg(l, a, ArgPieces(a) + rest, last);
    }
  }

  lemma GapOfArg(l: Language, a: Arg, ts: seq<Piece>, last: Option<char>)
    requires Python(l) && ArgRight(l, a) && Lexes(l, ts)
    ensures RenamedPieces(l, Marks(a.gap) + ts, last) == Marks(a.gap) + RenamedPieces(l, ts, last)
    ensures Lexes(l, Marks(a.gap) + ts)
  {
    hide RenamedPieces, Lexes;
    GapPassed(l, a.gap, ts, last);
  }

  lemma EndRenamed(l: Language, last: Option<char>)
    requires Python(l)
    ensures Lexes(l, [Mark(')')]) && RenamedPieces(l, [Mark(')')], last) == [Mark(')')]
  {
    SignsGoOn(l);
  }

  lemma CommaRenamed(l: Language, ts: seq<Piece>, last: Option<char>)
    requires Python(l)
    ensures Lexes(l, ts) ==> Lexes(l, [Mark(',')] + ts)
    ensures RenamedPieces(l, [Mark(',')] + ts, last) == [Mark(',')] + RenamedPieces(l, ts, Some(','))
  {
    SignsGoOn(l);
    assert ([Mark(',')] + ts)[1..] == ts;
  }

  /** Renaming a written call is writing it with its reserved argument names renamed, whatever its
      literals hold. */
  lemma CallRenamed(l: Language, f: string, args: seq<Arg>)
    requires Python(l) && IsName(l, f) && forall a :: a in args ==> ArgRight(l, a)
    ensures Rename(l, Text(CallPieces(f, args)), None, None) == Text(CallPieces(f, RenamedArgs(l, args)))
  {
    hide Rename, ArgRight, ArgsPieces, Lexes, RenamedPieces, Python, Text, IsName;
    ArgsRenamed(l, args, Some('('));
    FunctionStays(l, f, ArgsPieces(args));
    RenameIsByPiece(l, CallPieces(f, args), None);
  }

  lemma FunctionStays(l: Language, f: string, ts: seq<Piece>)
    requires Python(l) && IsName(l, f) && Lexes(l, ts)
    ensures Lexes(l, [Word(f), Mark('(')] + ts)
    ensures RenamedPieces(l, [Word(f), Mark('(')] + ts, None) ==
            [Word(f), Mark('(')] + RenamedPieces(l, ts, Some('('))
  {
    hide IsName, Lexes, RenamedPieces, Python, Continues;
    SignsGoOn(l);
    PieceFirst(l, Mark('('), ts, LastOf(Word(f), None));
    PieceFirst(l, Word(f), [Mark('(')] + ts, None);
    assert [Word(f)] + ([Mark('(')] + ts) == [Word(f), Mark('(')] + ts;
    assert [Word(f)] + ([Mark('(')] + RenamedPieces(l, ts, Some('(')))
        == [Word(f), Mark('(')] + RenamedPieces(l, ts, Some('('));
  }

  /** The arguments that a written call stands for. */
  function ArgumentsOf<V>(valueOf: seq<Piece> -> V, args: seq<Arg>): (r: Entries<V>)
    ensures |r| == |args| && forall i :: 0 <= i < |args| ==> r[i] == Entry(args[i].key, valueOf(args[i].value))
  {
    seq(|args|, i requires 0 <= i < |args| => Entry(args[i].key, valueOf(args[i].value)))
  }

  /** A written call whose arguments have different names, some of them keywords: once Python reads the
      renamed text as the renamed call, restoring brings back the names and values as written, exactly
      when no name is one that renaming could have made. */
  lemma ReservedNamesComeBack<V>(l: Language, parse: string -> Option<Entries<V>>, valueOf: seq<Piece> -> V,
                                 f: string, args: seq<Arg>)
    requires Python(l) && IsName(l, f) && forall a :: a in args ==> ArgRight(l, a)
    requires DistinctKeys(ArgumentsOf(valueOf, args))
    requires parse(Text(CallPieces(f, RenamedArgs(l, args)))) == Some(ArgumentsOf(valueOf, RenamedArgs(l, args)))
    ensures var decoded := parse(Rename(l, Text(CallPieces(f, args)), None, None));
            && decoded.Some?
            && (RestoredArguments(l, decoded.value) == ArgumentsOf(valueOf, args) <==>
                forall a :: a in args ==> !CouldBeMade(l, a.key))
  {
    hide Rename, CallPieces, Text, ArgRight, RestoredArguments, CouldBeMade;
    var d := ArgumentsOf(valueOf, args);
    CallRenamed(l, f, args);
    assert ArgumentsOf(valueOf, RenamedArgs(l, args)) == MapKeys(k => Renamed(l, k), d);
    RestoreUndoesRename(l, d);
    assert forall i :: 0 <= i < |args| ==> args[i] in args && d[i].key == args[i].key;
  }
}
