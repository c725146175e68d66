/** The byte string that namespaces published block hashes. */
module KvSeed {
  import opened Strings

  type Byte = n: nat | n < 256

  /** `n.to_bytes(k, "little")`. */
  function LittleEndian(n: nat, k: nat): (bytes: seq<Byte>)
    ensures |bytes| == k
  {
    if k == 0 then [] else [n % 256] + LittleEndian(n / 256, k - 1)
  }

  function Pow256(k: nat): nat {
    if k == 0 then 1 else 256 * Pow256(k - 1)
  }

  lemma {:induction false} LittleEndianInjective(m: nat, n: nat, k: nat)
    requires m < Pow256(k) && n < Pow256(k) && LittleEndian(m, k) == LittleEndian(n, k)
    ensures m == n
  {
    if k > 0 {
      var x, y := LittleEndian(m, k), LittleEndian(n, k);
      assert x[0] == m % 256 && y[0] == n % 256 && x[1..] == LittleEndian(m / 256, k - 1)
             && y[1..] == LittleEndian(n / 256, k - 1);
      LittleEndianInjective(m / 256, n / 256, k - 1);
    }
  }

  /** A part as it is hashed: a zero byte for an absent one; else a one, the length, the bytes. */
  function Encode(part: Option<seq<Byte>>): seq<Byte> {
    match part
    case None => [0]
    case Some(bytes) => [1] + LittleEndian(|bytes|, 8) + bytes
  }

  /** A part whose length fits the eight bytes; `to_bytes` raises on any other. */
  predicate Encodable(part: Option<seq<Byte>>) {
    part.Some? ==> |part.value| < Pow256(8)
  }

  function EncodeAll(parts: seq<Option<seq<Byte>>>): seq<Byte> {
    if parts == [] then [] else EncodeAll(parts[..|parts| - 1]) + Encode(parts[|parts| - 1])
  }

  /** The bytes after the tag, or none at all for the empty namespace. */
  function SeedBytes(extraKey: Option<seq<Byte>>, cacheSalt: Option<seq<Byte>>): Option<seq<Byte>> {
    if extraKey.None? && cacheSalt.None? then None else Some(Encode(extraKey) + Encode(cacheSalt))
  }

  lemma EncodeParts(p: seq<Byte>, x: seq<Byte>)
    ensures var s := Encode(Some(p)) + x;
            && |s| == 9 + |p| + |x| && s[1..9] == LittleEndian(|p|, 8)
            && s[9..9 + |p|] == p && s[9 + |p|..] == x
  {
    hide LittleEndian;
  }

  /** The encoding of a part is a prefix-free code: where it ends can be read off. */
  lemma EncodePrefixFree(a: Option<seq<Byte>>, b: Option<seq<Byte>>, x: seq<Byte>, y: seq<Byte>)
    requires Encodable(a) && Encodable(b) && Encode(a) + x == Encode(b) + y
    ensures a == b && x == y
  {
    hide LittleEndian, Pow256;
    var s, t := Encode(a) + x, Encode(b) + y;
    assert s[0] == Encode(a)[0] && t[0] == Encode(b)[0];
    match (a, b)
    case (Some(p), Some(q)) =>
      EncodeParts(p, x);
      EncodeParts(q, y);
      LittleEndianInjective(|p|, |q|, 8);
    case (None, None) =>
      assert s[1..] == x && t[1..] == y;
    case _ =>
  }

  /** Different namespaces are hashed from different bytes, absent parts included. */
  lemma SeedInjective(a: Option<seq<Byte>>, b: Option<seq<Byte>>, c: Option<seq<Byte>>, d: Option<seq<Byte>>)
    requires Encodable(a) && Encodable(b) && Encodable(c) && Encodable(d)
    ensures SeedBytes(a, b) == SeedBytes(c, d) <==> (a == c && b == d)
  {
    if SeedBytes(a, b) == SeedBytes(c, d) && SeedBytes(a, b).Some? {
      EncodePrefixFree(a, c, Encode(b), Encode(d));
      assert Encode(b) + [] == Encode(b) && Encode(d) + [] == Encode(d);
      EncodePrefixFree(b, d, [], []);
    }
  }

  /** The number that bytes spell, the lowest first. */
  function Number(bytes: seq<Byte>): nat {
    if bytes == [] then 0 else bytes[0] + 256 * Number(bytes[1..])
  }

  lemma {:induction false} NumberBack(n: nat, k: nat)
    requires n < Pow256(k)
    ensures Number(LittleEndian(n, k)) == n
  {
    if k > 0 {
      NumberBack(n / 256, k - 1);
    }
  }

  lemma EightBytes()
    ensures Pow256(8) == 0x1_0000_0000_0000_0000
  {
    assert Pow256(4) == 0x1_0000_0000;
  }

  /** A part read off the front of some bytes, and what is left: the first byte says whether it is there,
      the next eight how long it is. */
  function ReadPart(s: seq<Byte>): Option<(Option<seq<Byte>>, seq<Byte>)> {
    if s == [] then None
    else if s[0] == 0 then Some((None, s[1..]))
    else if s[0] != 1 || |s| < 9 || |s| - 9 < Number(s[1..9]) then None
    else Some((Some(s[9..9 + Number(s[1..9])]), s[9 + Number(s[1..9])..]))
  }

  /** The two parts, the extra key first. */
  function ReadSeed(s: seq<Byte>): Option<(Option<seq<Byte>>, Option<seq<Byte>>)> {
    match ReadPart(s)
    case None => None
    case Some((extraKey, rest)) =>
      match ReadPart(rest)
      case None => None
      case Some((cacheSalt, end)) => if end == [] then Some((extraKey, cacheSalt)) else None
  }

  lemma PartReads(part: Option<seq<Byte>>, rest: seq<Byte>)
    requires part.Some? ==> |part.value| < 0x1_0000_0000_0000_0000
    ensures ReadPart(Encode(part) + rest) == Some((part, rest))
  {
    hide LittleEndian, Number, Pow256;
    match part
    case None => assert (Encode(part) + rest)[1..] == rest;
    case Some(p) =>
      EightBytes();
      EncodeParts(p, rest);
      NumberBack(|p|, 8);
  }

  /** There are no bytes exactly when both parts are absent; else they read back as the two parts. */
  lemma SeedReads(extraKey: Option<seq<Byte>>, cacheSalt: Option<seq<Byte>>)
    requires extraKey.Some? ==> |extraKey.value| < 0x1_0000_0000_0000_0000
    requires cacheSalt.Some? ==> |cacheSalt.value| < 0x1_0000_0000_0000_0000
    ensures SeedBytes(extraKey, cacheSalt).None? <==> extraKey.None? && cacheSalt.None?
    ensures SeedBytes(extraKey, cacheSalt).Some? ==>
              ReadSeed(SeedBytes(extraKey, cacheSalt).value) == Some((extraKey, cacheSalt))
  {
    hide ReadPart, Encode;
    PartReads(extraKey, Encode(cacheSalt));
    PartReads(cacheSalt, []);
    assert Encode(cacheSalt) + [] == Encode(cacheSalt);
  }

  /** `kv_event_namespace_seed`, up to the digest of the tag and these bytes. */
  method NamespaceSeed(extraKey: Option<seq<Byte>>, cacheSalt: Option<seq<Byte>>) returns (bytes: Option<seq<Byte>>)
    ensures bytes == SeedBytes(extraKey, cacheSalt)
  {
    hide LittleEndian;
    if extraKey.None? && cacheSalt.None? {
      return None;
    }
    var digest: seq<Byte> := [];
    var parts := [extraKey, cacheSalt];
    for i := 0 to |parts|
      invariant digest == EncodeAll(parts[..i])
    {
      assert parts[..i + 1][..i] == parts[..i];
      match parts[i]
      case None => digest := digest + [0];
      case Some(encoded) => digest := digest + ([1] + LittleEndian(|encoded|, 8) + encoded);
    }
    assert parts[..1] == [extraKey] && parts[..2] == parts;
    assert EncodeAll(parts) == EncodeAll(parts[..1]) + Encode(cacheSalt);
    assert EncodeAll(parts[..1]) == EncodeAll(parts[..0]) + Encode(extraKey);
    assert [] + Encode(extraKey) == Encode(extraKey);
    return Some(digest);
  }
}
