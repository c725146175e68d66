/** Chained page hashes of token lists, and their indifference to how a prefix is cut into nodes. */
module KvHash {
  import opened Strings

  /** A token id as the hash encodes it: 32 bits. */
  type Token = n: nat | n < 0x1_0000_0000

  type Digest = string

  /** SHA-256 of an optional prior digest followed by the encoded tokens. */
  type Sha = (Option<Digest>, seq<Token>) -> Digest

  /** One digest a page, each chained into the next; the last page may be short. */
  function Pages(sha: Sha, prior: Option<Digest>, tokens: seq<Token>, page: nat): (hashes: seq<Digest>)
    requires page > 0
    ensures hashes == [] <==> tokens == []
    decreases |tokens|
  {
    if tokens == [] then []
    else if |tokens| <= page then [sha(prior, tokens)]
    else
      var h := sha(prior, tokens[..page]);
      [h] + Pages(sha, Some(h), tokens[page..], page)
  }

  datatype HashResult = Single(hash: Digest) | Paged(hashes: seq<Digest>) | BadPageSize

  /** `get_hash_str`: one digest for all the tokens, or one a page. */
  method GetHashStr(sha: Sha, tokens: seq<Token>, prior: Option<Digest>, pageSize: Option<int>)
      returns (r: HashResult)
    ensures pageSize.None? ==> r == Single(sha(prior, tokens))
    ensures pageSize.Some? && pageSize.value <= 0 ==> r == BadPageSize
    ensures pageSize.Some? && pageSize.value > 0 ==> r == Paged(Pages(sha, prior, tokens, pageSize.value))
  {
    if pageSize.None? {
      return Single(sha(prior, tokens));
    }
    var page := pageSize.value;
    if page <= 0 {
      return BadPageSize;
    }
    hide Pages, PagesFrom;
    var hashes: seq<Digest> := [];
    var chain := prior;
    var i := 0;
    PagesWhole(sha, prior, tokens, page);
    while i < |tokens|
      invariant 0 <= i
      invariant Pages(sha, prior, tokens, page) == hashes + PagesFrom(sha, chain, tokens, i, page)
    {
      var end := if i + page <= |tokens| then i + page else |tokens|;
      var h := sha(chain, tokens[i..end]);
      PageAt(sha, chain, tokens, i, page);
      ghost var rest := PagesFrom(sha, Some(h), tokens, i + page, page);
      assert hashes + ([h] + rest) == (hashes + [h]) + rest;
      hashes := hashes + [h];
      chain := Some(h);
      i := i + page;
    }
    PagesEnd(sha, chain, tokens, i, page);
    return Paged(hashes);
  }

  lemma PagesWhole(sha: Sha, chain: Option<Digest>, tokens: seq<Token>, page: nat)
    requires page > 0
    ensures [] + PagesFrom(sha, chain, tokens, 0, page) == Pages(sha, chain, tokens, page)
  {
    assert tokens[0..] == tokens;
  }

  lemma PagesEnd(sha: Sha, chain: Option<Digest>, tokens: seq<Token>, i: nat, page: nat)
    requires page > 0 && i >= |tokens|
    ensures PagesFrom(sha, chain, tokens, i, page) == []
  {
  }

  /** The hashes from position `i` on. */
  function PagesFrom(sha: Sha, chain: Option<Digest>, tokens: seq<Token>, i: nat, page: nat): seq<Digest>
    requires page > 0
  {
    if i < |tokens| then Pages(sha, chain, tokens[i..], page) else []
  }

  lemma PageAt(sha: Sha, chain: Option<Digest>, tokens: seq<Token>, i: nat, page: nat)
    requires page > 0 && i < |tokens|
    ensures var h := sha(chain, tokens[i..if i + page <= |tokens| then i + page else |tokens|]);
            PagesFrom(sha, chain, tokens, i, page) == [h] + PagesFrom(sha, Some(h), tokens, i + page, page)
  {
    hide Pages;
    var t := tokens[i..];
    PagesStep(sha, chain, t, page);
    if |t| > page {
      assert t[..page] == tokens[i..i + page] && t[page..] == tokens[i + page..];
    } else {
      assert t == tokens[i..|tokens|];
    }
  }

  /** The digest the next token list chains on. */
  function LastOr(hashes: seq<Digest>, prior: Option<Digest>): Option<Digest> {
    if hashes == [] then prior else Some(hashes[|hashes| - 1])
  }

  predicate Whole(n: nat, page: nat)
    requires page > 0
  {
    n % page == 0
  }

  /** The first page, and those behind it. */
  lemma PagesStep(sha: Sha, prior: Option<Digest>, tokens: seq<Token>, page: nat)
    requires page > 0 && tokens != []
    ensures |tokens| <= page ==> Pages(sha, prior, tokens, page) == [sha(prior, tokens)]
    ensures |tokens| > page ==>
              var h := sha(prior, tokens[..page]);
              Pages(sha, prior, tokens, page) == [h] + Pages(sha, Some(h), tokens[page..], page)
  {
  }

  /** Where page `i` starts. */
  function Start(i: nat, page: nat): nat {
    i * page
  }

  lemma StartZero(page: nat)
    ensures Start(0, page) == 0
  {
  }

  lemma StartStep(i: nat, page: nat)
    requires i > 0
    ensures Start(i, page) == page + Start(i - 1, page)
  {
    assert i * page == (1 + (i - 1)) * page;
  }

  /** Each hash is that of its own page of tokens, chained on the hash before it, and the first one on what
      was given. */
  lemma {:induction false} PageByPage(sha: Sha, prior: Option<Digest>, tokens: seq<Token>, page: nat, i: nat)
    requires page > 0 && i < |Pages(sha, prior, tokens, page)|
    ensures var hashes, from := Pages(sha, prior, tokens, page), Start(i, page);
            && from < |tokens|
            && hashes[i] == sha(if i == 0 then prior else Some(hashes[i - 1]),
                                tokens[from..if from + page <= |tokens| then from + page else |tokens|])
    decreases i
  {
    hide Start;
    PagesStep(sha, prior, tokens, page);
    if i == 0 {
      StartZero(page);
      assert tokens[0..|tokens|] == tokens;
    } else {
      var h, rest := sha(prior, tokens[..page]), tokens[page..];
      StartStep(i, page);
      PageByPage(sha, Some(h), rest, page, i - 1);
      var from := Start(i - 1, page);
      var to := if from + page <= |rest| then from + page else |rest|;
      assert rest[from..to] == tokens[page + from..page + to];
    }
  }

  /** Hashing past whole pages is hashing them, then the rest chained on. */
  lemma {:induction false} PagesOfConcat(sha: Sha, prior: Option<Digest>, a: seq<Token>, b: seq<Token>, page: nat)
    requires page > 0 && Whole(|a|, page)
    ensures var first := Pages(sha, prior, a, page);
            Pages(sha, prior, a + b, page) == first + Pages(sha, LastOr(first, prior), b, page)
    decreases |a|
  {
    hide Whole, Pages;
    if a == [] {
      assert a + b == b;
    } else if b == [] {
      assert a + b == a;
    } else {
      WholePages(|a|, page);
      PagesStep(sha, prior, a + b, page);
      PagesStep(sha, prior, a, page);
      assert (a + b)[..page] == a[..page] && (a + b)[page..] == a[page..] + b;
      if |a| == page {
        assert a[..page] == a && a[page..] + b == b;
      } else {
        var h := sha(prior, a[..page]);
        PagesOfConcat(sha, Some(h), a[page..], b, page);
        var rest := Pages(sha, Some(h), a[page..], page);
        assert LastOr([h] + rest, prior) == LastOr(rest, Some(h));
        assert [h] + (rest + Pages(sha, LastOr(rest, Some(h)), b, page)) ==
               ([h] + rest) + Pages(sha, LastOr(rest, Some(h)), b, page);
      }
    }
  }

  lemma WholePages(n: nat, page: nat)
    requires page > 0 && n > 0 && Whole(n, page)
    ensures n >= page && Whole(n - page, page)
  {
    if n < page {
      DivMod(n, 0, n, page);
    }
    ModMinus(n, page);
  }

  lemma ModMinus(n: int, page: nat)
    requires page > 0
    ensures (n - page) % page == n % page
  {
    var q, r := n / page, n % page;
    assert n - page == (q - 1) * page + r;
    DivMod(n - page, q - 1, r, page);
  }

  lemma DivMod(n: int, q: int, r: int, page: nat)
    requires page > 0 && 0 <= r < page && n == q * page + r
    ensures n / page == q && n % page == r
  {
    var q', r' := n / page, n % page;
    assert (q - q') * page == r' - r;
    if q - q' >= 1 {
      MulMonotone(1, q - q', page);
    } else if q - q' <= -1 {
      MulMonotone(q - q', -1, page);
    }
  }

  lemma MulMonotone(x: int, y: int, n: nat)
    requires x <= y
    ensures x * n <= y * n
  {
  }

  function CeilDiv(n: nat, page: nat): nat
    requires page > 0
  {
    (n + page - 1) / page
  }

  lemma CeilStep(n: nat, page: nat)
    requires page > 0
    ensures n == 0 ==> CeilDiv(n, page) == 0
    ensures 0 < n <= page ==> CeilDiv(n, page) == 1
    ensures n > page ==> CeilDiv(n, page) == 1 + CeilDiv(n - page, page)
  {
    if n == 0 {
      DivMod(page - 1, 0, page - 1, page);
    } else if n <= page {
      DivMod(n + page - 1, 1, n - 1, page);
    } else {
      var m := n - 1;
      assert n + page - 1 == (m / page + 1) * page + m % page;
      DivMod(n + page - 1, m / page + 1, m % page, page);
    }
  }

  lemma {:induction false} PageCount(sha: Sha, prior: Option<Digest>, tokens: seq<Token>, page: nat)
    requires page > 0
    ensures |Pages(sha, prior, tokens, page)| == CeilDiv(|tokens|, page)
    decreases |tokens|
  {
    hide CeilDiv;
    CeilStep(|tokens|, page);
    if |tokens| > page {
      PageCount(sha, Some(sha(prior, tokens[..page])), tokens[page..], page);
    }
  }

  /** `split_node_hash_value`: the whole pages of the first part to the new node, the rest to the child. */
  function SplitHashes(hashes: Option<seq<Digest>>, splitLen: nat, page: nat)
    : (Option<seq<Digest>>, Option<seq<Digest>>)
    requires page > 0
  {
    match hashes
    case None => (None, None)
    case Some(h) =>
      var pages := if page == 1 then splitLen else splitLen / page;
      var cut := if pages <= |h| then pages else |h|;
      (Some(h[..cut]), Some(h[cut..]))
  }

  /** Splitting a node's hashes gives both halves exactly their own, the child's chained on the new
      node's, precisely when the split falls on a page boundary. */
  lemma SplitIsRightIffAligned(sha: Sha, prior: Option<Digest>, tokens: seq<Token>, splitLen: nat, page: nat)
    requires page > 0 && splitLen <= |tokens|
    ensures var first := Pages(sha, prior, tokens[..splitLen], page);
            var rest := Pages(sha, LastOr(first, prior), tokens[splitLen..], page);
            Whole(splitLen, page)
            <==> SplitHashes(Some(Pages(sha, prior, tokens, page)), splitLen, page) == (Some(first), Some(rest))
  {
    hide Pages, CeilDiv;
    var first := Pages(sha, prior, tokens[..splitLen], page);
    PageCount(sha, prior, tokens[..splitLen], page);
    PageCount(sha, prior, tokens, page);
    FloorAndCeil(splitLen, page);
    CeilMonotone(splitLen, |tokens|, page);
    if page == 1 {
      DivMod(splitLen, splitLen, 0, 1);
    }
    if splitLen % page == 0 {
      PagesOfConcat(sha, prior, tokens[..splitLen], tokens[splitLen..], page);
      assert tokens[..splitLen] + tokens[splitLen..] == tokens;
    }
  }

  /** Three tokens in pages of two, split behind the first: all hashes go to the child, none to the node
      above, which has a page. */
  lemma SplitInsidePage(sha: Sha, prior: Option<Digest>)
    ensures var hashes := Pages(sha, prior, [7, 8, 9], 2);
            && SplitHashes(Some(hashes), 1, 2) == (Some([]), Some(hashes))
            && Pages(sha, prior, [7, 8, 9][..1], 2) == [sha(prior, [7])]
  {
    hide Pages, SplitHashes;
    var tokens: seq<Token> := [7, 8, 9];
    NoWholePage(Pages(sha, prior, tokens, 2));
    assert tokens[..1] == [7];
    PagesStep(sha, prior, tokens[..1], 2);
  }

  lemma NoWholePage(hashes: seq<Digest>)
    ensures SplitHashes(Some(hashes), 1, 2) == (Some([]), Some(hashes))
  {
    assert hashes[..0] == [] && hashes[0..] == hashes;
  }

  lemma FloorAndCeil(n: nat, page: nat)
    requires page > 0
    ensures n % page == 0 <==> n / page == CeilDiv(n, page)
    ensures n / page <= CeilDiv(n, page)
  {
    var q, r := n / page, n % page;
    assert n == q * page + r;
    if r == 0 {
      DivMod(n + page - 1, q, page - 1, page);
    } else {
      assert n + page - 1 == (q + 1) * page + (r - 1);
      DivMod(n + page - 1, q + 1, r - 1, page);
    }
  }

  lemma CeilMonotone(m: nat, n: nat, page: nat)
    requires page > 0 && m <= n
    ensures CeilDiv(m, page) <= CeilDiv(n, page)
  {
    var a, b := CeilDiv(m, page), CeilDiv(n, page);
    assert a * page <= m + page - 1 <= n + page - 1 < (b + 1) * page;
    if a > b {
      MulMonotone(b + 1, a, page);
    }
  }

  function Flatten<T>(parts: seq<seq<T>>): seq<T> {
    if parts == [] then [] else parts[0] + Flatten(parts[1..])
  }

  /** Every node but the last has a key of whole pages. */
  predicate Aligned(keys: seq<seq<Token>>, page: nat)
    requires page > 0
  {
    forall i :: 0 <= i < |keys| - 1 ==> Whole(|keys[i]|, page)
  }

  /** The nodes' hashes along a path, each node chained on its parent's last digest. */
  function PathHashes(sha: Sha, prior: Option<Digest>, keys: seq<seq<Token>>, page: nat): (r: seq<seq<Digest>>)
    requires page > 0
    ensures |r| == |keys|
    decreases |keys|
  {
    if keys == [] then []
    else
      var first := Pages(sha, prior, keys[0], page);
      [first] + PathHashes(sha, LastOr(first, prior), keys[1..], page)
  }

  /** The block hashes of a path do not depend on how the tree cuts it into nodes: they are the flat
      paged hashes of the whole prefix. */
  lemma {:induction false} PathIsFlat(sha: Sha, prior: Option<Digest>, keys: seq<seq<Token>>, page: nat)
    requires page > 0 && Aligned(keys, page)
    ensures Flatten(PathHashes(sha, prior, keys, page)) == Pages(sha, prior, Flatten(keys), page)
    decreases |keys|
  {
    if keys != [] {
      var first := Pages(sha, prior, keys[0], page);
      PathIsFlat(sha, LastOr(first, prior), keys[1..], page);
      if |keys| == 1 {
        assert Flatten(keys) == keys[0];
        assert PathHashes(sha, LastOr(first, prior), keys[1..], page) == [];
        assert first + [] == first;
      } else {
        PagesOfConcat(sha, prior, keys[0], Flatten(keys[1..]), page);
      }
    }
  }

  /** Splitting a node on a page boundary splits its hashes, and changes no other node's on the path. */
  lemma {:induction false} SplitNodeKeepsPath(sha: Sha, prior: Option<Digest>, keys: seq<seq<Token>>, i: nat,
                                              splitLen: nat, page: nat)
    requires page > 0 && i < |keys| && splitLen <= |keys[i]| && Whole(splitLen, page)
    ensures var before := PathHashes(sha, prior, keys, page);
            var halves := SplitHashes(Some(before[i]), splitLen, page);
            PathHashes(sha, prior, keys[..i] + [keys[i][..splitLen], keys[i][splitLen..]] + keys[i + 1..], page)
            == before[..i] + [halves.0.value, halves.1.value] + before[i + 1..]
    decreases i
  {
    hide Whole, SplitHashes, Pages;
    if i == 0 {
      FirstSplit(sha, prior, keys, splitLen, page);
    } else {
      hide PathHashes;
      var first := Pages(sha, prior, keys[0], page);
      var before := PathHashes(sha, LastOr(first, prior), keys[1..], page);
      var two := [keys[i][..splitLen], keys[i][splitLen..]];
      SplitNodeKeepsPath(sha, LastOr(first, prior), keys[1..], i - 1, splitLen, page);
      assert keys[1..][i - 1] == keys[i];
      PathFirst(sha, prior, keys[0], keys[1..], page);
      PathFirst(sha, prior, keys[0], keys[1..][..i - 1] + two + keys[1..][i..], page);
      FirstAside(keys[0], keys[1..], two, i - 1);
      assert [keys[0]] + keys[1..] == keys;
      var halves := SplitHashes(Some(before[i - 1]), splitLen, page);
      HalvesThere(before[i - 1], splitLen, page);
      FirstAside(first, before, [halves.0.value, halves.1.value], i - 1);
    }
  }

  lemma HalvesThere(hashes: seq<Digest>, splitLen: nat, page: nat)
    requires page > 0
    ensures var halves := SplitHashes(Some(hashes), splitLen, page); halves.0.Some? && halves.1.Some?
  {
  }

  /** Replacing an element behind the first one. */
  lemma FirstAside<T>(first: T, rest: seq<T>, two: seq<T>, i: nat)
    requires i < |rest|
    ensures var all := [first] + rest;
            all[i + 1] == rest[i] && all[..i + 1] + two + all[i + 2..] == [first] + (rest[..i] + two + rest[i + 1..])
  {
    var all := [first] + rest;
    assert all[..i + 1] == [first] + rest[..i] && all[i + 2..] == rest[i + 1..];
  }

  lemma PathFirst(sha: Sha, prior: Option<Digest>, key: seq<Token>, keys: seq<seq<Token>>, page: nat)
    requires page > 0
    ensures var first := Pages(sha, prior, key, page);
            PathHashes(sha, prior, [key] + keys, page) == [first] + PathHashes(sha, LastOr(first, prior), keys, page)
  {
    hide Pages;
    assert ([key] + keys)[1..] == keys;
  }

  lemma FirstSplit(sha: Sha, prior: Option<Digest>, keys: seq<seq<Token>>, splitLen: nat, page: nat)
    requires page > 0 && keys != [] && splitLen <= |keys[0]| && Whole(splitLen, page)
    ensures var before := PathHashes(sha, prior, keys, page);
            var halves := SplitHashes(Some(before[0]), splitLen, page);
            PathHashes(sha, prior, keys[..0] + [keys[0][..splitLen], keys[0][splitLen..]] + keys[1..], page)
            == before[..0] + [halves.0.value, halves.1.value] + before[1..]
  {
    hide Whole, SplitHashes, Pages, PathHashes;
    var front, back := keys[0][..splitLen], keys[0][splitLen..];
    var first := Pages(sha, prior, keys[0], page);
    SplitIsRightIffAligned(sha, prior, keys[0], splitLen, page);
    var a := Pages(sha, prior, front, page);
    var b := Pages(sha, LastOr(a, prior), back, page);
    PagesOfConcat(sha, prior, front, back, page);
    assert front + back == keys[0];
    assert LastOr(b, LastOr(a, prior)) == LastOr(first, prior);
    PathFirst(sha, prior, keys[0], keys[1..], page);
    PathFirst(sha, prior, front, [back] + keys[1..], page);
    PathFirst(sha, LastOr(a, prior), back, keys[1..], page);
    assert [keys[0]] + keys[1..] == keys;
    assert keys[..0] + [front, back] + keys[1..] == [front] + ([back] + keys[1..]);
  }
}
