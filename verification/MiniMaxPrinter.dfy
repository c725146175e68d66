/** Printed parameters of MiniMax M3, and what the parser makes of them. */
module MiniMaxPrinter {
  import opened Strings
  import opened JsonValues
  import opened MiniMaxM3
  import opened MiniMaxTrees

  /** The pieces of an element: one for its opening tag and text, its children's, one for its end. */
  function Pieces(t: Tree): seq<string>
    decreases t, 0
  {
    [Opening(t.tag) + t.text] + PiecesAll(t.children) + [Ending(t.tag) + t.after]
  }

  function PiecesAll(ts: seq<Tree>): seq<string>
    decreases ts
  {
    if ts == [] then [] else Pieces(ts[0]) + PiecesAll(ts[1..])
  }

  function Opening(tag: string): string {
    "<" + tag + ">"
  }

  function Ending(tag: string): string {
    "</" + tag + ">"
  }

  /** Every piece behind a namespace token. */
  function Joined(pieces: seq<string>): string {
    if pieces == [] then "" else NS + (pieces[0] + Joined(pieces[1..]))
  }

  /** A tag that can be read back. */
  predicate TagRight(tag: string) {
    '>' !in tag && (tag == "" || tag[0] != '/') && Strip(tag) == tag
  }

  ghost predicate Printable(t: Tree)
    decreases t, 0
  {
    && TagRight(t.tag) && !Occurs(NS, Opening(t.tag) + t.text) && !Occurs(NS, Ending(t.tag) + t.after)
    && PrintableAll(t.children)
  }

  ghost predicate PrintableAll(ts: seq<Tree>)
    decreases ts
  {
    ts == [] || (Printable(ts[0]) && PrintableAll(ts[1..]))
  }

  /** The namespace token never overlaps itself. */
  lemma TokensApart(s: string, i: nat, j: nat)
    requires OccursAt(NS, s, i) && OccursAt(NS, s, j) && i < j
    ensures i + |NS| <= j
  {
    if j < i + |NS| {
      hide OccursAt;
      CharWithin(NS, s, i, j);
      CharWithin(NS, s, j, j);
      if j + 1 < i + |NS| {
        CharWithin(NS, s, i, j + 1);
        CharWithin(NS, s, j, j + 1);
      }
      NoOverlap(j - i);
    }
  }

  /** The first token found after a piece is the one printed behind it. */
  lemma FirstToken(piece: string, rest: string)
    requires !Occurs(NS, piece)
    ensures IndexOf(NS, piece + (NS + rest)) == |piece|
  {
    hide IndexOf, Occurs, OccursAt;
    var s := piece + (NS + rest);
    StandsBehind(NS, piece, rest);
    FoundFirst(NS, s, |piece|);
    var j := IndexOf(NS, s);
    if j < |piece| {
      TokensApart(s, j, |piece|);
      OccursInPrefix(NS, piece, NS + rest, j);
      OccurrenceOccurs(NS, piece, j);
    }
  }

  lemma NoOverlap(k: nat)
    requires 0 < k < |NS|
    ensures NS[k] != NS[0] || (k + 1 < |NS| && NS[k + 1] != NS[1])
  {
  }

  /** Splitting undoes joining. */
  lemma {:induction false} SplitJoined(piece: string, pieces: seq<string>)
    requires !Occurs(NS, piece) && forall p :: p in pieces ==> !Occurs(NS, p)
    ensures Split(piece + Joined(pieces)) == [piece] + pieces
    decreases |pieces|
  {
    hide IndexOf;
    if pieces == [] {
      assert piece + "" == piece;
    } else {
      var rest := pieces[0] + Joined(pieces[1..]);
      FirstToken(piece, rest);
      var s := piece + (NS + rest);
      assert s[..|piece|] == piece && s[|piece| + |NS|..] == rest;
      assert pieces[0] in pieces && forall p :: p in pieces[1..] ==> p in pieces;
      SplitJoined(pieces[0], pieces[1..]);
      assert pieces == [pieces[0]] + pieces[1..];
    }
  }

  /** Stripping reaches the text but not the tag in front of it. */
  lemma {:induction false} StripKeepsTag(tag: string, text: string)
    requires "<" <= tag && tag[|tag| - 1] == '>'
    ensures Strip(tag + text) == tag + StripRight(text)
    decreases |text|
  {
    var s := tag + text;
    assert s[0] == '<';
    if text == "" {
      assert s == tag;
    } else if IsSpace(text[|text| - 1]) {
      StripKeepsTag(tag, text[..|text| - 1]);
      assert s[..|s| - 1] == tag + text[..|text| - 1];
      assert (tag + text[..|text| - 1])[0] == '<';
    }
  }

  lemma BracketAt(before: string, rest: string)
    requires '>' !in before
    ensures IndexOf(">", before + (">" + rest)) == |before|
  {
    var s := before + (">" + rest);
    assert s[|before|..|before| + 1] == ">";
    assert OccursAt(">", s, |before|);
    var j := IndexOf(">", s);
    assert s[j] == s[j..j + 1][0] == '>';
    assert forall k :: 0 <= k < |before| ==> s[k] == before[k] != '>';
  }

  lemma ReadOpening(tag: string, text: string)
    requires TagRight(tag)
    ensures Read(Opening(tag) + text) == Ok(Some(Open(tag, StripRight(text))))
  {
    hide Strip, StripRight, IndexOf;
    var chunk := Opening(tag) + StripRight(text);
    StripKeepsTag(Opening(tag), text);
    assert chunk == ("<" + tag) + (">" + StripRight(text));
    BracketAt("<" + tag, StripRight(text));
    assert chunk[1..|tag| + 1] == tag && chunk[|tag| + 2..] == StripRight(text);
    assert chunk[1] != '/';
  }

  lemma ReadEnding(tag: string, after: string)
    requires TagRight(tag)
    ensures Read(Ending(tag) + after) == Ok(Some(Close(tag)))
  {
    hide Strip, StripRight, IndexOf;
    var chunk := Ending(tag) + StripRight(after);
    StripKeepsTag(Ending(tag), after);
    assert chunk[2..] == tag + (">" + StripRight(after));
    BracketAt(tag, StripRight(after));
    assert chunk[2..2 + |tag|] == tag;
  }

  /** Each piece says its event. */
  ghost predicate Say(pieces: seq<string>, events: seq<Event>) {
    |pieces| == |events| && forall i :: 0 <= i < |pieces| ==> Read(pieces[i]) == Ok(Some(events[i]))
  }

  lemma {:induction false} RunSays(convert: Converter, stack: seq<Frame>, pieces: seq<string>, events: seq<Event>)
    requires stack != [] && Say(pieces, events)
    ensures RunPieces(convert, stack, pieces) == RunEvents(convert, stack, events)
    decreases |pieces|
  {
    hide Read, Act;
    if pieces != [] {
      match Act(convert, stack, events[0])
      case Err(_) =>
      case Ok(stack') => RunSays(convert, stack', pieces[1..], events[1..]);
    }
  }

  lemma {:induction false} TreeSays(t: Tree)
    requires Printable(t)
    ensures Say(Pieces(t), Events(t)) && forall p :: p in Pieces(t) ==> !Occurs(NS, p)
    decreases t, 0
  {
    hide Read, TagRight, StripRight;
    ReadOpening(t.tag, t.text);
    ReadEnding(t.tag, t.after);
    ForestSays(t.children);
  }

  lemma {:induction false} ForestSays(ts: seq<Tree>)
    requires PrintableAll(ts)
    ensures Say(PiecesAll(ts), EventsAll(ts)) && forall p :: p in PiecesAll(ts) ==> !Occurs(NS, p)
    decreases ts
  {
    hide Read, Pieces, Events;
    if ts != [] {
      TreeSays(ts[0]);
      ForestSays(ts[1..]);
    }
  }

  /** The value a parameter starts with. */
  function RootValue(schema: Json, ts: seq<Tree>): Json {
    if IsArraySchema(schema) && ts != [] && ts[0].tag == "item" then Arr([]) else Obj(map[])
  }

  lemma FirstPiece(ts: seq<Tree>)
    ensures if ts == [] then PiecesAll(ts) == []
            else PiecesAll(ts) != [] && PiecesAll(ts)[0] == Opening(ts[0].tag) + ts[0].text
  {
  }

  /** Only the tag `item` makes a piece that starts with `<item>`. */
  lemma OpensItem(tag: string, rest: string)
    requires '>' !in tag
    ensures "<item>" <= Opening(tag) + rest <==> tag == "item"
  {
    var chunk := Opening(tag) + rest;
    assert chunk == ("<" + tag) + (">" + rest);
    BracketAt("<" + tag, rest);
    if "<item>" <= chunk {
      assert chunk == "<item" + (">" + chunk[6..]);
      BracketAt("<item", chunk[6..]);
      assert tag == chunk[1..5] == "item";
    }
  }

  lemma RootOfForest(schema: Json, ts: seq<Tree>)
    requires PrintableAll(ts)
    ensures Root(schema, [""] + PiecesAll(ts)) == Frame("", schema, RootValue(schema, ts))
  {
    hide IsArraySchema, StripRight, PiecesAll, Strip;
    var pieces := PiecesAll(ts);
    assert ([""] + pieces)[1..] == pieces;
    FirstPiece(ts);
    StripNothing();
    assert StartsWithItem([""] + pieces) == StartsWithItem(pieces);
    if ts != [] {
      StripKeepsTag(Opening(ts[0].tag), ts[0].text);
      OpensItem(ts[0].tag, StripRight(ts[0].text));
    }
  }

  /** The parser over the text computes what the recursion over the elements does: text is cut off at
      trailing blanks, whatever follows an end tag is passed over, and repeated tags gather in lists. */
  lemma PrintedIsDenoted(convert: Converter, schema: Json, ts: seq<Tree>)
    requires PrintableAll(ts)
    ensures Parse(convert, Joined(PiecesAll(ts)), schema)
         == DenoteAll(convert, schema, RootValue(schema, ts), ts)
  {
    hide RunPieces, RunEvents, Root, RootValue, DenoteAll, PiecesAll, EventsAll, PrintableAll, Split, Say;
    var pieces := PiecesAll(ts);
    var root := Root(schema, [""] + pieces);
    ForestSays(ts);
    assert "" + Joined(pieces) == Joined(pieces);
    assert !Occurs(NS, "");
    SplitJoined("", pieces);
    RunBlank(convert, [root], pieces);
    RunSays(convert, [root], pieces, EventsAll(ts));
    ForestRuns(convert, [root], ts);
    RootOfForest(schema, ts);
  }

  lemma RunBlank(convert: Converter, stack: seq<Frame>, pieces: seq<string>)
    requires stack != []
    ensures RunPieces(convert, stack, [""] + pieces) == RunPieces(convert, stack, pieces)
  {
    assert ([""] + pieces)[0] == "" && ([""] + pieces)[1..] == pieces;
    StripNothing();
  }

  lemma {:induction false} RunPiecesConcat(convert: Converter, stack: seq<Frame>, x: seq<string>, y: seq<string>)
    requires stack != []
    ensures RunPieces(convert, stack, x + y) ==
              match RunPieces(convert, stack, x)
              case Err(e) => Err(e)
              case Ok(stack') => RunPieces(convert, stack', y)
    decreases |x|
  {
    hide Step;
    if x == [] {
      assert x + y == y;
    } else {
      assert (x + y)[0] == x[0] && (x + y)[1..] == x[1..] + y;
      match Step(convert, stack, x[0])
      case Err(e) =>
      case Ok(stack') => RunPiecesConcat(convert, stack', x[1..], y);
    }
  }

  /** The pieces of open elements. */
  function PathPieces(levels: seq<Level>): seq<string>
    requires levels != []
    decreases |levels|
  {
    PiecesAll(levels[0].done)
    + if |levels| == 1 then [] else [Opening(levels[1].tag) + levels[1].text] + PathPieces(levels[1..])
  }

  ghost predicate LevelsPrintable(levels: seq<Level>) {
    && (forall l :: l in levels ==> PrintableAll(l.done))
    && forall i :: 1 <= i < |levels| ==> TagRight(levels[i].tag) && StripRight(levels[i].text) == levels[i].text
  }

  lemma SayTogether(x: seq<string>, y: seq<string>, events: seq<Event>, more: seq<Event>)
    requires Say(x, events) && Say(y, more)
    ensures Say(x + y, events + more)
  {
    hide Read;
  }

  lemma {:induction false} LevelsSay(levels: seq<Level>)
    requires levels != [] && LevelsPrintable(levels)
    ensures Say(PathPieces(levels), PathEvents(levels))
    decreases |levels|
  {
    hide Read, PiecesAll, EventsAll, PrintableAll, TagRight, PathEvents, Say, StripRight;
    PathFront(levels);
    assert levels[0] in levels;
    ForestSays(levels[0].done);
    if |levels| == 1 {
      assert PiecesAll(levels[0].done) + [] == PiecesAll(levels[0].done);
      assert EventsAll(levels[0].done) + [] == EventsAll(levels[0].done);
    } else {
      var l := levels[1];
      assert forall x :: x in levels[1..] ==> x in levels;
      LevelsSay(levels[1..]);
      ReadOpening(l.tag, l.text);
      SayOne(Opening(l.tag) + l.text, Open(l.tag, l.text));
      SayTogether([Opening(l.tag) + l.text], PathPieces(levels[1..]), [Open(l.tag, l.text)], PathEvents(levels[1..]));
      SayTogether(PiecesAll(levels[0].done), [Opening(l.tag) + l.text] + PathPieces(levels[1..]),
                  EventsAll(levels[0].done), [Open(l.tag, l.text)] + PathEvents(levels[1..]));
    }
  }

  lemma SayOne(piece: string, e: Event)
    requires Read(piece) == Ok(Some(e))
    ensures Say([piece], [e])
  {
  }

  /** At any depth, an end tag of another element than the innermost open one fails the parse, whatever
      comes after, and so does one where none is open. */
  lemma MismatchIsRejected(convert: Converter, root: Frame, levels: seq<Level>, ending: string, rest: seq<string>)
    requires levels != [] && LevelsPrintable(levels) && Frames(convert, [root], levels).Ok? && TagRight(ending)
    requires |levels| > 1 ==> ending != levels[|levels| - 1].tag
    ensures RunPieces(convert, [root], PathPieces(levels) + [Ending(ending)] + rest) ==
            Err(if |levels| == 1 then UnexpectedClosing(ending)
              else MismatchedClosing(levels[|levels| - 1].tag, ending))
  {
    hide Read, RunEvents, TagRight, LevelsPrintable, PathPieces, Frames, PathEvents, Say;
    var inside := PathPieces(levels);
    LevelsSay(levels);
    RunSays(convert, [root], inside, PathEvents(levels));
    PathRuns(convert, [root], levels);
    FramesStand(convert, [root], levels);
    RunPiecesConcat(convert, [root], inside, [Ending(ending)] + rest);
    assert inside + ([Ending(ending)] + rest) == inside + [Ending(ending)] + rest;
    ReadEnding(ending, "");
    assert Ending(ending) + "" == Ending(ending);
  }
}
