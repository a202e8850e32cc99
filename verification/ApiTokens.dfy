/** The bearer token format: a fixed prefix, a random part, and a lookup derived from it. */
module ApiTokens {
  import opened Prelude

  const TOKEN_PREFIX: string := "bb_studio_"
  const LOOKUP_LEN: nat := 8

  datatype ParsedToken = ParsedToken(randomPart: string, lookup: string)

  /** What the format needs of the hex digest: enough characters, none of them an underscore. */
  ghost predicate HexDigest(digest: string -> string) {
    forall r :: |digest(r)| >= LOOKUP_LEN && '_' !in digest(r)
  }

  function MakeLookup(digest: string -> string, randomPart: string): string {
    Take(digest(randomPart), LOOKUP_LEN)
  }

  function PrintToken(digest: string -> string, randomPart: string): string {
    TOKEN_PREFIX + randomPart + "_" + MakeLookup(digest, randomPart)
  }

  function LastUnderscore(s: string): (i: int)
    ensures -1 <= i < |s| && (i >= 0 ==> s[i] == '_') && forall k | i < k < |s| :: s[k] != '_'
  {
    if s == "" then -1
    else if s[|s| - 1] == '_' then |s| - 1
    else LastUnderscore(s[..|s| - 1])
  }

  function ParseBody(digest: string -> string, body: string): Option<ParsedToken> {
    var cut := LastUnderscore(body);
    if cut < 0 then None
    else
      var randomPart, lookup := body[..cut], body[cut + 1..];
      if |lookup| != LOOKUP_LEN then None
      else if !(32 <= |randomPart| <= 64) then None
      else if MakeLookup(digest, randomPart) != lookup then None
      else Some(ParsedToken(randomPart, lookup))
  }

  function ParseToken(digest: string -> string, raw: string): Option<ParsedToken> {
    if TOKEN_PREFIX <= raw then ParseBody(digest, raw[|TOKEN_PREFIX|..]) else None
  }

  lemma {:induction false} CutsAtLast(a: string, b: string)
    requires '_' !in b
    ensures LastUnderscore(a + "_" + b) == |a|
  {
    var s := a + "_" + b;
    if b == "" {
    } else {
      var front := b[..|b| - 1];
      assert s[|s| - 1] == b[|b| - 1] && b[|b| - 1] in b;
      assert s[..|s| - 1] == a + "_" + front;
      CutsAtLast(a, front);
    }
  }

  lemma LookupIsPlain(digest: string -> string, randomPart: string)
    requires HexDigest(digest)
    ensures |MakeLookup(digest, randomPart)| == LOOKUP_LEN && '_' !in MakeLookup(digest, randomPart)
  {}

  /** Parsing a printed token recovers its parts, whatever underscores the random part holds. */
  lemma ParseInvertsPrint(digest: string -> string, randomPart: string)
    requires HexDigest(digest) && 32 <= |randomPart| <= 64
    ensures ParseToken(digest, PrintToken(digest, randomPart)) ==
            Some(ParsedToken(randomPart, MakeLookup(digest, randomPart)))
  {
    var lookup := MakeLookup(digest, randomPart);
    var body := randomPart + "_" + lookup;
    LookupIsPlain(digest, randomPart);
    CutsAtLast(randomPart, lookup);
    assert body[..|randomPart|] == randomPart && body[|randomPart| + 1..] == lookup;
    assert PrintToken(digest, randomPart) == TOKEN_PREFIX + body;
    assert (TOKEN_PREFIX + body)[|TOKEN_PREFIX|..] == body;
  }

  /** Only printed tokens are accepted: the raw string is the print of what was parsed. */
  lemma PrintInvertsParse(digest: string -> string, raw: string)
    requires ParseToken(digest, raw).Some?
    ensures var p := ParseToken(digest, raw).value;
      raw == PrintToken(digest, p.randomPart) && 32 <= |p.randomPart| <= 64 &&
        p.lookup == MakeLookup(digest, p.randomPart)
  {}

  /** The accepted strings are exactly the prints of random parts of a plausible length. */
  lemma AcceptedAreExactlyPrinted(digest: string -> string, raw: string)
    requires HexDigest(digest)
    ensures ParseToken(digest, raw).Some? <==> exists r ::
      32 <= |r| <= 64 && |digest(r)| >= 8 && raw == "bb_studio_" + r + "_" + digest(r)[..8]
  {
    if ParseToken(digest, raw).Some? {
      PrintInvertsParse(digest, raw);
    }
    if r :| 32 <= |r| <= 64 && |digest(r)| >= 8 && raw == "bb_studio_" + r + "_" + digest(r)[..8] {
      assert digest(r)[..8] == MakeLookup(digest, r);
      ParseInvertsPrint(digest, r);
    }
  }
}
