/** What `json.dumps` writes is JSON, and reads back as what was written. */
module JsonObjects {
  import opened Strings
  import opened JsonGrammar
  import opened JsonStrings
  import opened Dictionaries

  /** The value of a hexadecimal digit, or -1. */
  function Hex(u: Unit): int {
    if u.Escaped? then -1
    else if '0' <= u.c <= '9' then u.c as int - '0' as int
    else if 'a' <= u.c <= 'f' then 10 + (u.c as int - 'a' as int)
    else if 'A' <= u.c <= 'F' then 10 + (u.c as int - 'A' as int)
    else -1
  }

  /** The character with the code that four digits name, where it is no half of a pair. */
  function HexRead(units: seq<Unit>): Option<char>
    requires |units| == 4
  {
    var a, b, c, d := Hex(units[0]), Hex(units[1]), Hex(units[2]), Hex(units[3]);
    if a < 0 || b < 0 || c < 0 || d < 0 || a > 15 || b > 15 || c > 15 || d > 15 then None
    else
      var code := ((a * 16 + b) * 16 + c) * 16 + d;
      if code < 0xd800 then Some(code as char) else None
  }

  /** The characters that escapes of one letter stand for. */
  function ShortRead(c: char): Option<char> {
    if c == '"' || c == '\\' || c == '/' then Some(c)
    else if c == 'b' then Some(8 as char)
    else if c == 'f' then Some(12 as char)
    else if c == 'n' then Some('\n')
    else if c == 'r' then Some('\r')
    else if c == 't' then Some('\t')
    else None
  }

  function Before(c: Option<char>, more: Option<string>): Option<string> {
    if c.Some? && more.Some? then Some([c.value] + more.value) else None
  }

  /** The string that units denote, by section 7 of RFC 8259; no control character stands for itself. */
  function ReadUnits(units: seq<Unit>): Option<string>
    decreases |units|
  {
    if units == [] then Some("")
    else
      match units[0]
      case Plain(c) => Before(if c as int < 32 then None else Some(c), ReadUnits(units[1..]))
      case Escaped(c) =>
        if c == 'u' then if |units| < 5 then None else Before(HexRead(units[1..5]), ReadUnits(units[5..]))
        else Before(ShortRead(c), ReadUnits(units[1..]))
  }

  /** The units that a character is written with. */
  function CharUnits(c: char): seq<Unit> {
    if c == '"' || c == '\\' then [Escaped(c)]
    else if c == '\n' then [Escaped('n')]
    else if c == '\r' then [Escaped('r')]
    else if c == '\t' then [Escaped('t')]
    else if c as int == 8 then [Escaped('b')]
    else if c as int == 12 then [Escaped('f')]
    else if c as int < 32 then
      HexUnits(HEX[c as int / 16], HEX[c as int % 16])
    else [Plain(c)]
  }

  function UnitsOf(s: string): seq<Unit> {
    if s == "" then [] else CharUnits(s[0]) + UnitsOf(s[1..])
  }

  lemma {:induction false} UnitsTextConcat(x: seq<Unit>, y: seq<Unit>)
    ensures UnitsText(x + y) == UnitsText(x) + UnitsText(y)
    decreases |x|
  {
    if x == [] {
      assert x + y == y;
    } else {
      assert (x + y)[0] == x[0] && (x + y)[1..] == x[1..] + y;
      UnitsTextConcat(x[1..], y);
    }
  }

  lemma OneUnit(u: Unit)
    ensures UnitsText([u]) == UnitText(u) && [u][1..] == []
  {
    assert [u][1..] == [];
    assert UnitsText([]) == "";
  }

  /** `u` and four digits. */
  function HexUnits(high: char, low: char): (units: seq<Unit>)
    ensures |units| == 5
  {
    [Escaped('u'), Plain('0'), Plain('0'), Plain(high), Plain(low)]
  }

  lemma HexUnitsText(high: char, low: char)
    ensures UnitsText(HexUnits(high, low)) == "\\u00" + [high, low]
  {
    hide UnitsText;
    var e, z, h, l := [Escaped('u')], [Plain('0')], [Plain(high)], [Plain(low)];
    OneUnit(e[0]);
    OneUnit(z[0]);
    OneUnit(h[0]);
    OneUnit(l[0]);
    UnitsTextConcat(e, z + (z + (h + l)));
    UnitsTextConcat(z, z + (h + l));
    UnitsTextConcat(z, h + l);
    UnitsTextConcat(h, l);
    assert HexUnits(high, low) == e + (z + (z + (h + l)));
    assert "\\u" + ("0" + ("0" + ([high] + [low]))) == "\\u00" + [high, low];
  }

  lemma CharText(c: char)
    ensures UnitsText(CharUnits(c)) == DumpChar(c) && UnitsRight(CharUnits(c))
  {
    hide UnitsText, HexUnits;
    var units := CharUnits(c);
    if |units| == 1 {
      OneUnit(units[0]);
    } else {
      HexUnitsText(HEX[c as int / 16], HEX[c as int % 16]);
      DigitPlain(c as int / 16);
      DigitPlain(c as int % 16);
      HexUnitsRight(HEX[c as int / 16], HEX[c as int % 16]);
    }
  }

  lemma DigitPlain(n: int)
    requires 0 <= n < 16
    ensures HEX[n] != '"' && HEX[n] != '\\'
  {
  }

  lemma HexUnitsRight(high: char, low: char)
    requires high != '"' && high != '\\' && low != '"' && low != '\\'
    ensures UnitsRight(HexUnits(high, low))
  {
  }

  lemma CharRead(c: char, more: seq<Unit>)
    ensures ReadUnits(CharUnits(c) + more) == Before(Some(c), ReadUnits(more))
  {
    hide HexUnits, ReadUnits, ShortRead;
    var units := CharUnits(c);
    if |units| == 1 {
      UnitStands(c);
      OneRead(units[0], c, more);
    } else {
      HexUnitsRead(c as int, more);
    }
  }

  lemma UnitStands(c: char)
    ensures |CharUnits(c)| == 1 ==> Stands(CharUnits(c)[0], c)
  {
    hide HexUnits;
  }

  /** The unit stands for the character. */
  predicate Stands(u: Unit, c: char) {
    match u
    case Plain(d) => d == c && c as int >= 32
    case Escaped(d) => d != 'u' && ShortRead(d) == Some(c)
  }

  lemma OneRead(u: Unit, c: char, more: seq<Unit>)
    requires Stands(u, c)
    ensures ReadUnits([u] + more) == Before(Some(c), ReadUnits(more))
  {
    hide ShortRead, HexRead;
    assert ([u] + more)[0] == u && ([u] + more)[1..] == more;
  }

  lemma HexUnitsRead(n: int, more: seq<Unit>)
    requires 0 <= n < 32
    ensures ReadUnits(HexUnits(HEX[n / 16], HEX[n % 16]) + more) == Before(Some(n as char), ReadUnits(more))
  {
    hide ShortRead, Hex;
    var units := HexUnits(HEX[n / 16], HEX[n % 16]);
    var all := units + more;
    assert all[0] == Escaped('u') && all[5..] == more && all[1..5] == units[1..5];
    HexBack(n);
    assert HexRead(units[1..5]) == Some(n as char);
  }

  lemma HexBack(n: int)
    requires 0 <= n < 32
    ensures var d := Plain(HEX[n % 16]); Hex(d) == n % 16
    ensures var d := Plain(HEX[n / 16]); Hex(d) == n / 16
    ensures Hex(Plain('0')) == 0
  {
    DigitBack(n % 16);
    DigitBack(n / 16);
  }

  lemma DigitBack(n: int)
    requires 0 <= n < 16
    ensures Hex(Plain(HEX[n])) == n
  {
  }

  /** A dumped string is JSON text, and reads back as the string. */
  lemma {:induction false} DumpReads(s: string)
    ensures UnitsText(UnitsOf(s)) == Dump(s) && UnitsRight(UnitsOf(s)) && ReadUnits(UnitsOf(s)) == Some(s)
  {
    hide CharUnits, DumpChar, ReadUnits;
    if s == "" {
      NothingReads();
    } else {
      DumpReads(s[1..]);
      CharText(s[0]);
      UnitsTextConcat(CharUnits(s[0]), UnitsOf(s[1..]));
      CharRead(s[0], UnitsOf(s[1..]));
      assert [s[0]] + s[1..] == s;
    }
  }

  lemma NothingReads()
    ensures ReadUnits([]) == Some("")
  {
  }

  lemma QuotedReads(s: string)
    ensures Quoted(s) == StringText(UnitsOf(s)) && UnitsRight(UnitsOf(s)) && ReadUnits(UnitsOf(s)) == Some(s)
  {
    DumpReads(s);
    Assoc("\"", Dump(s), "\"");
  }

  /** Names and values, as `json.dumps` separates them. */
  function Members(names: seq<string>, values: seq<Value>): seq<Member>
    requires |names| == |values|
  {
    seq(|names|, i requires 0 <= i < |names| =>
      Member(if i == 0 then "" else " ", UnitsOf(names[i]), "", " ", values[i], ""))
  }

  /** The text of members behind the first ones of an object. */
  lemma {:induction false} MoreText(d: Entries<string>, members: seq<Member>, n: nat)
    requires n <= |d| == |members|
    requires forall i :: 0 <= i < |d| ==> MemberIs(members[i], if i == 0 then "" else " ", d[i])
    ensures (if n == 0 || n == |d| then "" else ",") + ElementsText(members[n..], true) ==
            if n == 0 then (if d == [] then "" else EntryText(Quoted, d[0]) + MoreOpen(Quoted, d[1..]))
              else MoreOpen(Quoted, d[n..])
    decreases |d| - n
  {
    hide EntryText, Quoted, MemberIs;
    if n < |d| {
      MoreText(d, members, n + 1);
      var m, rest := members[n], members[n..];
      assert rest[0] == m && rest[1..] == members[n + 1..];
      assert d[n..][0] == d[n] && d[n..][1..] == d[n + 1..];
      var comma := if n + 1 == |d| then "" else ",";
      ElementText(m, if n == 0 then "" else " ", d[n], comma, ElementsText(rest[1..], true));
      assert ElementsText(rest, true) == (if n == 0 then "" else " ")
             + (EntryText(Quoted, d[n]) + (comma + ElementsText(rest[1..], true)));
      Assoc(",", " ", EntryText(Quoted, d[n]) + MoreOpen(Quoted, d[n + 1..]));
      if n > 0 {
        assert "," + " " == ", ";
        Assoc(", ", EntryText(Quoted, d[n]), MoreOpen(Quoted, d[n + 1..]));
      } else {
        var text := EntryText(Quoted, d[0]) + MoreOpen(Quoted, d[1..]);
        assert d[0 + 1..] == d[1..] && "" + text == text;
      }
    } else {
      assert members[n..] == [] && d[n..] == [];
      assert ElementsText([], true) == "" && MoreOpen(Quoted, []) == "";
    }
  }

  /** A member is an entry: its name and the text of its value. */
  predicate MemberIs(m: Member, before: string, e: Entry<string>) {
    m.before == before && m.key == UnitsOf(e.key) && m.afterKey == "" && m.beforeValue == " " && m.after == ""
    && TextOf(m.value) == e.value
  }

  lemma ElementText(m: Member, before: string, e: Entry<string>, comma: string, rest: string)
    requires MemberIs(m, before, e)
    ensures (m.before + (StringText(m.key) + (m.afterKey + ":" + m.beforeValue))) + (TextOf(m.value) + m.after + comma)
            + rest
         == before + (EntryText(Quoted, e) + (comma + rest))
  {
    hide Quoted, StringText, UnitsOf, TextOf;
    QuotedReads(e.key);
    assert "" + ":" + " " == ": ";
    var q, v := Quoted(e.key), e.value;
    assert v + "" + comma == v + comma;
    assert (before + (q + ": ")) + (v + comma) + rest == before + (q + ": " + v + (comma + rest));
  }

  /** The text of a dictionary is that of a JSON object with its entries as members, in order; and every
      name reads back. */
  lemma ObjectIsJson(d: Entries<string>, values: seq<Value>)
    requires |values| == |d| && forall i :: 0 <= i < |d| ==> TextOf(values[i]) == d[i].value
    ensures ObjectText(Quoted, d) == TextOf(Obj("", Members(Names(d), values)))
    ensures (forall v :: v in values ==> WellFormed(v)) ==> WellFormed(Obj("", Members(Names(d), values)))
    ensures forall i :: 0 <= i < |d| ==> ReadUnits(UnitsOf(d[i].key)) == Some(d[i].key)
  {
    hide Quoted, EntryText, ElementsText, UnitsOf, ReadUnits, WellFormed, UnitsRight;
    var members := Members(Names(d), values);
    MoreText(d, members, 0);
    assert members[0..] == members;
    assert "" + ElementsText(members, true) == ElementsText(members, true);
    forall i | 0 <= i < |d|
      ensures ReadUnits(UnitsOf(d[i].key)) == Some(d[i].key) && UnitsRight(UnitsOf(d[i].key)) && values[i] in values
    {
      QuotedReads(d[i].key);
    }
    ObjectRight(d, values);
    if d == [] {
      assert ObjectText(Quoted, d) == "{" + "}" == "{" + "" + "}";
    } else {
      assert OpenText(Quoted, d) == "{" + EntryText(Quoted, d[0]) + MoreOpen(Quoted, d[1..]);
      Assoc("{", EntryText(Quoted, d[0]), MoreOpen(Quoted, d[1..]));
    }
  }

  function Names(d: Entries<string>): (names: seq<string>)
    ensures |names| == |d|
  {
    seq(|d|, i requires 0 <= i < |d| => d[i].key)
  }

  lemma ObjectRight(d: Entries<string>, values: seq<Value>)
    requires |values| == |d|
    requires forall i :: 0 <= i < |d| ==> UnitsRight(UnitsOf(d[i].key)) && values[i] in values
    ensures (forall v :: v in values ==> WellFormed(v)) ==> WellFormed(Obj("", Members(Names(d), values)))
  {
    hide UnitsOf, UnitsRight;
    if forall v :: v in values ==> WellFormed(v) {
      forall m | m in Members(Names(d), values) ensures MemberRight(m) {
        var i :| 0 <= i < |d| && m == Members(Names(d), values)[i];
        assert values[i] in values;
      }
    }
  }
}
