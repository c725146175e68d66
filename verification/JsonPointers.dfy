/** Local references: the pointer to a place, as section 6 of RFC 6901 writes it, resolves to that place. */
module JsonPointers {
  import opened Strings
  import opened JsonValues
  import opened ArgumentTypes

  /** A name as a reference token: `~` becomes `~0`, `/` becomes `~1`. */
  function Token(name: string): string {
    if name == "" then ""
    else (if name[0] == '~' then "~0" else if name[0] == '/' then "~1" else [name[0]]) + Token(name[1..])
  }

  /** The same with only `~` escaped. */
  function Tildes(name: string): string {
    if name == "" then "" else (if name[0] == '~' then "~0" else [name[0]]) + Tildes(name[1..])
  }

  lemma {:induction false} SlashesBack(name: string)
    ensures ReplaceAll(Token(name), "~1", "/") == Tildes(name)
    ensures Token(name) == "" || Token(name)[0] != '1' || name[0] == '1'
  {
    if name != "" {
      SlashesBack(name[1..]);
      var t, more := Token(name), Token(name[1..]);
      if name[0] == '~' {
        assert t == "~0" + more && t[1..] == "0" + more && ("0" + more)[1..] == more && t[1] == '0';
        ReplaceNot(t, "~1", "/");
        ReplaceNot("0" + more, "~1", "/");
      } else if name[0] == '/' {
        assert t == "~1" + more && t[2..] == more;
        assert "~1" <= t;
      } else {
        assert t == [name[0]] + more && t[1..] == more && t[0] != '~';
        ReplaceNot(t, "~1", "/");
      }
    }
  }

  lemma ReplaceNot(s: string, from: string, to: string)
    requires s != "" && |from| == 2 && (s[0] != from[0] || |s| < 2 || s[1] != from[1])
    ensures ReplaceAll(s, from, to) == [s[0]] + ReplaceAll(s[1..], from, to)
  {
    assert !(from <= s);
  }

  lemma {:induction false} TildesBack(name: string)
    ensures ReplaceAll(Tildes(name), "~0", "~") == name
  {
    if name != "" {
      TildesBack(name[1..]);
      var t, more := Tildes(name), Tildes(name[1..]);
      if name[0] == '~' {
        assert t == "~0" + more && t[2..] == more;
        assert "~0" <= t;
      } else {
        assert t == [name[0]] + more && t[1..] == more;
        ReplaceNot(t, "~0", "~");
      }
    }
  }

  lemma TokenDecoded(name: string)
    ensures Decode(Token(name)) == name
  {
    SlashesBack(name);
    TildesBack(name);
  }

  lemma {:induction false} TokenHoldsNoSlash(name: string)
    ensures '/' !in Token(name)
  {
    if name != "" {
      TokenHoldsNoSlash(name[1..]);
    }
  }

  function Tokens(names: seq<string>): seq<string> {
    seq(|names|, i requires 0 <= i < |names| => Token(names[i]))
  }

  /** The tokens, a slash in front of each. */
  function Slashed(names: seq<string>): string {
    if names == [] then "" else "/" + Token(names[0]) + Slashed(names[1..])
  }

  function Pointer(names: seq<string>): string {
    "#" + Slashed(names)
  }

  lemma {:induction false} SplitPlain(token: string, rest: string)
    requires '/' !in token && (rest == "" || rest[0] == '/')
    ensures Split(token + rest, '/') == [token] + if rest == "" then [] else Split(rest[1..], '/')
  {
    if token == "" {
      assert token + rest == rest;
    } else {
      var w := token + rest;
      assert w[0] == token[0] && w[1..] == token[1..] + rest;
      SplitPlain(token[1..], rest);
      assert [token[0]] + token[1..] == token;
    }
  }

  lemma SlashFirst(names: seq<string>)
    requires names != []
    ensures Slashed(names) == "/" + (Token(names[0]) + Slashed(names[1..]))
    ensures Slashed(names)[1..] == Token(names[0]) + Slashed(names[1..]) && Slashed(names)[0] == '/'
    ensures Pointer(names)[2..] == Slashed(names)[1..] && "#/" <= Pointer(names) && Pointer(names) != "#"
  {
    hide Token;
    Assoc("/", Token(names[0]), Slashed(names[1..]));
    PointerParts(Token(names[0]) + Slashed(names[1..]));
  }

  lemma PointerParts(t: string)
    ensures ("/" + t)[1..] == t && ("/" + t)[0] == '/'
    ensures ("#" + ("/" + t))[2..] == t && "#/" <= "#" + ("/" + t) && "#" + ("/" + t) != "#"
  {
    assert "#" + ("/" + t) == "#/" + t;
  }

  lemma {:induction false} SplitPointer(names: seq<string>)
    requires names != []
    ensures Split(Slashed(names)[1..], '/') == Tokens(names)
    decreases |names|
  {
    hide Token, Split;
    var more := Slashed(names[1..]);
    SlashFirst(names);
    TokenHoldsNoSlash(names[0]);
    SplitPlain(Token(names[0]), more);
    if names[1..] != [] {
      SplitPointer(names[1..]);
      SlashFirst(names[1..]);
    }
    assert Tokens(names) == [Token(names[0])] + Tokens(names[1..]);
  }

  /** The names lead to this place: members by their names, elements by numerals of their index, or of how
      far they stand from the end. */
  ghost predicate Named(env: Env, doc: Json, p: Path, names: seq<string>)
    decreases |p|
  {
    if p == [] || names == [] then p == [] && names == []
    else
      match (doc, p[0])
      case (Obj(fields), Field(k)) => names[0] == k && k in fields && Named(env, fields[k], p[1..], names[1..])
      case (Arr(items), Element(i)) =>
        && 0 <= i < |items| && (env.intOf(names[0]) == Some(i) || env.intOf(names[0]) == Some(i - |items|))
        && Named(env, items[i], p[1..], names[1..])
      case _ => false
  }

  lemma {:induction false} AtSteps(doc: Json, p: Path, q: Path)
    requires At(doc, p).Some?
    ensures At(doc, p + q) == At(At(doc, p).value, q)
    decreases |p|
  {
    if p == [] {
      assert p + q == q;
    } else {
      assert (p + q)[0] == p[0] && (p + q)[1..] == p[1..] + q;
      match doc
      case Obj(fields) => AtSteps(fields[p[0].k], p[1..], q);
      case Arr(items) => AtSteps(items[p[0].i], p[1..], q);
    }
  }

  /** Nothing is found but a place of the document, below where the walk started. */
  lemma {:induction false} WalkStays(env: Env, at: Path, tokens: seq<string>)
    requires At(env.root, at).Some?
    ensures var q := Walk(env, at, tokens);
            q.Some? ==> At(env.root, q.value).Some? && |q.value| == |at| + |tokens| && at <= q.value
    decreases |tokens|
  {
    if tokens != [] && Walk(env, at, tokens).Some? {
      var token := Decode(tokens[0]);
      var here := At(env.root, at).value;
      var place := if here.Obj? then Field(token)
        else var i := env.intOf(token).value; Element(if i < 0 then |here.items| + i else i);
      AtSteps(env.root, at, [place]);
      assert [place][1..] == [];
      WalkStays(env, at + [place], tokens[1..]);
    }
  }

  /** One step of a walk. */
  function Step(env: Env, doc: Json, name: string): Option<Place> {
    match doc
    case Arr(items) =>
      (match env.intOf(name)
       case Some(i) =>
         if 0 <= i < |items| then Some(Element(i)) else if -|items| <= i < 0 then Some(Element(|items| + i)) else None
       case None => None)
    case Obj(fields) => if name in fields then Some(Field(name)) else None
    case _ => None
  }

  lemma WalkStep(env: Env, at: Path, doc: Json, names: seq<string>)
    requires At(env.root, at) == Some(doc) && names != []
    ensures var place := Step(env, doc, names[0]);
            && Walk(env, at, Tokens(names)) ==
               (if place.None? then None else Walk(env, at + [place.value], Tokens(names[1..])))
            && (place.Some? ==>
                  At(doc, [place.value]).Some? && At(env.root, at + [place.value]) == At(doc, [place.value]))
  {
    hide Token, Decode;
    var tokens := Tokens(names);
    TokenDecoded(names[0]);
    assert tokens[0] == Token(names[0]) && tokens[1..] == Tokens(names[1..]);
    var place := Step(env, doc, names[0]);
    if place.Some? {
      assert [place.value][1..] == [];
      AtSteps(env.root, at, [place.value]);
    }
  }

  lemma NamedStep(env: Env, doc: Json, p: Path, names: seq<string>)
    requires p != [] && names != []
    ensures Named(env, doc, p, names) <==>
            Step(env, doc, names[0]) == Some(p[0]) && At(doc, [p[0]]).Some?
              && Named(env, At(doc, [p[0]]).value, p[1..], names[1..])
  {
    assert [p[0]][1..] == [];
  }

  lemma {:induction false} WalkExactly(env: Env, at: Path, doc: Json, p: Path, names: seq<string>)
    requires At(env.root, at) == Some(doc)
    ensures Walk(env, at, Tokens(names)) == Some(at + p) <==> Named(env, doc, p, names)
    decreases |names|
  {
    hide Step, At;
    if names == [] {
      assert at + p == at <==> p == [];
    } else {
      WalkStep(env, at, doc, names);
      WalkStays(env, at, Tokens(names));
      var place := Step(env, doc, names[0]);
      if p == [] {
        assert |at + p| == |at|;
      } else {
        NamedStep(env, doc, p, names);
        if place.Some? {
          WalkStays(env, at + [place.value], Tokens(names[1..]));
          assert (at + p)[|at|] == p[0];
          assert (at + [place.value]) <= at + p ==> (at + p)[|at|] == (at + [place.value])[|at|];
          if place == Some(p[0]) {
            assert at + p == (at + [p[0]]) + p[1..];
            WalkExactly(env, at + [p[0]], At(doc, [p[0]]).value, p[1..], names[1..]);
          }
        }
      }
    }
  }

  /** A pointer finds exactly the place that its names lead to. */
  lemma PlaceFound(env: Env, p: Path, names: seq<string>)
    ensures Resolve(env, Str(Pointer(names))) == Some(p) <==> Named(env, env.root, p, names)
  {
    hide Walk, Split, Slashed, Pointer;
    assert [] + p == p;
    if names == [] {
      PointerToRoot();
    } else {
      SplitPointer(names);
      WalkExactly(env, [], env.root, p, names);
      SlashFirst(names);
    }
  }

  lemma PointerToRoot()
    ensures Pointer([]) == "#"
  {
  }

  /** Only a local reference finds anything, and nothing but a place of the document. */
  lemma FoundIsPlace(env: Env, ref: Json)
    ensures var q := Resolve(env, ref);
            q.Some? ==> At(env.root, q.value).Some? && ref.Str? && (ref.s == "#" || "#/" <= ref.s)
  {
    hide Split;
    if Resolve(env, ref).Some? && ref.s != "#" {
      WalkStays(env, [], Split(ref.s[2..], '/'));
    }
  }
}
