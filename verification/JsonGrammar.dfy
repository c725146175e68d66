/** The texts of JSON values. */
module JsonGrammar {

  /** A character of a JSON string: one that stands for itself, or an escaped one. */
  datatype Unit = Plain(c: char) | Escaped(c: char)

  /** The grammar of sections 3 to 7 of RFC 8259, white space included: literal names and numbers by
      their characters, strings by their units, arrays and objects by their members. */
  datatype Value =
    | Atom(text: string)
    | Str(units: seq<Unit>)
    | Arr(blank: string, elements: seq<Member>)
    | Obj(blank: string, members: seq<Member>)

  /** An element of an array, or, with a key, a member of an object; with the white space around. */
  datatype Member =
    Member(before: string, key: seq<Unit>, afterKey: string, beforeValue: string, value: Value, after: string)

  predicate Blank(s: string) {
    forall c :: c in s ==> c == ' ' || c == '\t' || c == '\n' || c == '\r'
  }

  /** Characters of `true`, `false`, `null` and of numbers. */
  predicate AtomChar(c: char) {
    'a' <= c <= 'z' || 'A' <= c <= 'Z' || '0' <= c <= '9' || c == '-' || c == '+' || c == '.'
  }

  predicate UnitsRight(units: seq<Unit>) {
    forall u :: u in units && u.Plain? ==> u.c != '"' && u.c != '\\'
  }

  predicate WellFormed(v: Value) {
    match v
    case Atom(text) => text != "" && forall c :: c in text ==> AtomChar(c)
    case Str(units) => UnitsRight(units)
    case Arr(blank, elements) => Blank(blank) && forall m :: m in elements ==> MemberRight(m)
    case Obj(blank, members) => Blank(blank) && forall m :: m in members ==> MemberRight(m)
  }

  predicate MemberRight(m: Member) {
    && Blank(m.before) && UnitsRight(m.key) && Blank(m.afterKey) && Blank(m.beforeValue)
    && WellFormed(m.value) && Blank(m.after)
  }

  function UnitsText(units: seq<Unit>): string {
    if units == [] then ""
    else UnitText(units[0]) + UnitsText(units[1..])
  }

  function UnitText(u: Unit): string {
    match u
    case Plain(c) => [c]
    case Escaped(c) => ['\\', c]
  }

  function StringText(units: seq<Unit>): string {
    "\"" + (UnitsText(units) + "\"")
  }

  /** The JSON text of a value. */
  function TextOf(v: Value): string
    decreases v, 0
  {
    match v
    case Atom(text) => text
    case Str(units) => StringText(units)
    case Arr(blank, elements) => "[" + (blank + ElementsText(elements, false)) + "]"
    case Obj(blank, members) => "{" + (blank + ElementsText(members, true)) + "}"
  }

  function ElementsText(members: seq<Member>, keyed: bool): string
    decreases members
  {
    if members == [] then ""
    else
      var m := members[0];
      (m.before + (if keyed then StringText(m.key) + (m.afterKey + ":" + m.beforeValue) else ""))
      + (TextOf(m.value) + m.after + (if |members| > 1 then "," else ""))
      + ElementsText(members[1..], keyed)
  }
}
