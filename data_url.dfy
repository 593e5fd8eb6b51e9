/**
 * `isValidImageDataUrl` (script.js and relive.js carry identical copies):
 * a value is accepted only if it is a string matching
 * `^data:image/(png|jpeg|jpg|gif|webp|svg\+xml);base64,[A-Za-z0-9+/=]+$`.
 */
module DataUrl {
  import opened Wrappers

  const Prefix: string := "data:image/"
  const Marker: string := ";base64,"
  /** The alternatives of the pattern's group, in the order the regular expression tries them. */
  const Subtypes: seq<string> := ["png", "jpeg", "jpg", "gif", "webp", "svg+xml"]

  predicate IsBase64Char(c: char)
  {
    ('A' <= c <= 'Z') || ('a' <= c <= 'z') || ('0' <= c <= '9') || c == '+' || c == '/' || c == '='
  }

  /** `[A-Za-z0-9+/=]+` up to the end of the input. */
  predicate IsPayload(p: string)
  {
    |p| > 0 && forall i :: 0 <= i < |p| ==> IsBase64Char(p[i])
  }

  /** The data URL for one subtype and payload. */
  function Build(subtype: string, payload: string): string
  {
    Prefix + subtype + Marker + payload
  }

  /** One alternative of the group, then the marker, then a payload to the end of the input. */
  predicate AltMatches(rest: string, alt: string)
  {
    alt + Marker <= rest && IsPayload(rest[|alt + Marker|..])
  }

  /** The pattern after its fixed prefix: some alternative of `alts` matches. */
  predicate MatchesFrom(rest: string, alts: seq<string>)
    decreases |alts|
  {
    alts != [] && (AltMatches(rest, alts[0]) || MatchesFrom(rest, alts[1..]))
  }

  lemma {:induction false} NoAltMatches(rest: string, alts: seq<string>)
    requires forall k :: 0 <= k < |alts| ==> !AltMatches(rest, alts[k])
    ensures !MatchesFrom(rest, alts)
    decreases |alts|
  {
    if alts != [] {
      assert !AltMatches(rest, alts[0]);
      NoAltMatches(rest, alts[1..]);
    }
  }

  predicate MatchesPattern(s: string)
  {
    Prefix <= s && MatchesFrom(s[|Prefix|..], Subtypes)
  }

  /** `None` stands for every value that is not a string (`null`, `undefined`, numbers, objects). */
  function IsValidImageDataUrl(v: Option<string>): (ok: bool)
    ensures ok ==> v.Some? && |v.value| > |Prefix| + |Marker|
  {
    match v
    case None => false
    case Some(s) => s != "" && MatchesPattern(s)
  }

  lemma {:induction false} MatchesFromMember(rest: string, alts: seq<string>, sub: string, p: string)
    requires sub in alts && IsPayload(p) && rest == sub + Marker + p
    ensures MatchesFrom(rest, alts)
    decreases |alts|
  {
    if alts[0] == sub {
      assert rest[|alts[0] + Marker|..] == p;
    } else {
      MatchesFromMember(rest, alts[1..], sub, p);
    }
  }

  /** Every data URL with an allowed subtype and a non-empty base64 payload is accepted. */
  lemma AcceptsBuilt(sub: string, p: string)
    requires sub in Subtypes && IsPayload(p)
    ensures IsValidImageDataUrl(Some(Build(sub, p)))
  {
    var s := Build(sub, p);
    assert s[|Prefix|..] == sub + Marker + p;
    MatchesFromMember(s[|Prefix|..], Subtypes, sub, p);
  }

  lemma {:induction false} MatchesFromSplit(rest: string, alts: seq<string>) returns (sub: string, p: string)
    requires MatchesFrom(rest, alts)
    ensures sub in alts && IsPayload(p) && rest == sub + Marker + p
    decreases |alts|
  {
    if AltMatches(rest, alts[0]) {
      sub, p := alts[0], rest[|alts[0] + Marker|..];
      assert rest == (alts[0] + Marker) + p;
    } else {
      sub, p := MatchesFromSplit(rest, alts[1..]);
    }
  }

  /** Conversely, every accepted value is such a data URL: the two lemmas together
      characterise the accepted strings exactly. */
  lemma Decompose(s: string) returns (sub: string, p: string)
    requires IsValidImageDataUrl(Some(s))
    ensures sub in Subtypes && IsPayload(p) && s == Build(sub, p)
  {
    sub, p := MatchesFromSplit(s[|Prefix|..], Subtypes);
    assert s == Prefix + s[|Prefix|..];
  }

  /** Values that are not data URLs at all are turned away. */
  lemma RejectsNonUrls()
    ensures !IsValidImageDataUrl(None)
    ensures !IsValidImageDataUrl(Some(""))
    ensures !IsValidImageDataUrl(Some("not-a-url"))
  {
    assert !(Prefix <= "not-a-url") by { assert "not-a-url"[0] != Prefix[0]; }
  }

  /** A subtype outside the list (`bmp`) is turned away. */
  lemma RejectsUnlistedSubtype()
    ensures !IsValidImageDataUrl(Some("data:image/bmp;base64,AAAA"))
  {
    var rest := "bmp;base64,AAAA";
    assert "data:image/bmp;base64,AAAA"[|Prefix|..] == rest;
    forall k | 0 <= k < |Subtypes|
      ensures !AltMatches(rest, Subtypes[k])
    {
      assert (Subtypes[k] + Marker)[0] != rest[0];
    }
    NoAltMatches(rest, Subtypes);
  }

  /** An empty payload is turned away: the pattern asks for at least one base64 character. */
  lemma RejectsEmptyPayload()
    ensures !IsValidImageDataUrl(Some("data:image/png;base64,"))
  {
    var rest := "png;base64,";
    assert "data:image/png;base64,"[|Prefix|..] == rest;
    forall k | 0 <= k < |Subtypes|
      ensures !AltMatches(rest, Subtypes[k])
    {
      if k == 0 {
        assert rest[|Subtypes[0] + Marker|..] == "";
      } else {
        assert (Subtypes[k] + Marker)[0] != rest[0];
      }
    }
    NoAltMatches(rest, Subtypes);
  }

  lemma AcceptsExample()
    ensures IsValidImageDataUrl(Some("data:image/png;base64,iVBO="))
  {
    AcceptsBuilt("png", "iVBO=");
    assert Build("png", "iVBO=") == "data:image/png;base64,iVBO=";
  }
}
