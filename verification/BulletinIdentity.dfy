/** Bulletin identities, the signed envelope, and the revision admission policy on a list of records. */
module BulletinIdentity {
  import opened Wrappers
  import opened Digests

  const MAX_REVISION: int := 0x1F_FFFF_FFFF_FFFF
  const SIGNATURE_VERSION: int := 2
  const UNSIGNED := "unsigned"

  /** What is particular to the platform: white space, and the public-key check on a signed text. */
  datatype Policy = Policy(isSpace: char -> bool, verifies: (string, string, string) -> bool)

  /** A bulletin as it is signed and compared. */
  datatype Record = Record(bulletinId: string, revision: int, publisher: string, contentHash: string, title: string)

  // ---------------------------------------------------------------- identity and signature

  predicate IdentityValid(policy: Policy, bulletinId: string, revision: int) {
    && (exists i :: 0 <= i < |bulletinId| && !policy.isSpace(bulletinId[i]))
    && 1 <= revision <= MAX_REVISION
  }

  function HexChar(n: nat): char
    requires n < 16
  {
    if n < 10 then '0' + n as char else 'a' + (n - 10) as char
  }

  /** JSON string escaping: quotation mark, backslash and the control characters. */
  function EscapeChar(c: char): (s: string)
    ensures s != []
  {
    if c == '"' then "\\\""
    else if c == '\\' then "\\\\"
    else if c == '\n' then "\\n"
    else if c == '\r' then "\\r"
    else if c == '\t' then "\\t"
    else if c == '\U{8}' then "\\b"
    else if c == '\U{C}' then "\\f"
    else if c < ' ' then "\\u00" + [HexChar(c as int / 16), HexChar(c as int % 16)]
    else [c]
  }

  function Escape(s: string): string {
    if s == "" then "" else EscapeChar(s[0]) + Escape(s[1..])
  }

  function Quote(s: string): string {
    "\"" + Escape(s) + "\""
  }

  function Digit(n: nat): char
    requires n < 10
  {
    '0' + n as char
  }

  /** `str(n)` */
  function Decimal(n: nat): (s: string)
    ensures s != ""
    ensures forall i :: 0 <= i < |s| ==> '0' <= s[i] <= '9'
  {
    if n < 10 then [Digit(n)] else Decimal(n / 10) + [Digit(n % 10)]
  }

  /** The text that is signed: a JSON array with fixed positions. */
  function Envelope(r: Record): string
    requires r.revision >= 0
  {
    "[\"TFP_BULLETIN\",2," + Quote(r.bulletinId) + "," + Decimal(r.revision) + "," + Quote(r.title) + ","
    + Quote(r.contentHash) + "," + Quote(r.publisher) + "]"
  }

  /** A bulletin without a title is signed under its name. */
  function Entitled(r: Record): Record {
    r.(title := if r.title == "" then r.bulletinId else r.title)
  }

  predicate SignatureValid(policy: Policy, r: Record, signature: string, version: int) {
    && IdentityValid(policy, r.bulletinId, r.revision)
    && version == SIGNATURE_VERSION
    && IsHexDigest(r.contentHash) && IsHexDigest(r.publisher)
    && policy.verifies(r.publisher, signature, Envelope(Entitled(r)))
  }

  datatype Status = Unsigned | VerifiedEd25519

  /** None stands for the errors on a malformed identity or a failed verification. */
  function VerificationStatus(policy: Policy, r: Record, signature: Option<string>, version: int): Option<Status> {
    if !IdentityValid(policy, r.bulletinId, r.revision) then None
    else if r.publisher == UNSIGNED && signature.None? then Some(Unsigned)
    else if signature.None? || signature.value == "" || r.publisher == UNSIGNED
         || !SignatureValid(policy, r, signature.value, version) then None
    else Some(VerifiedEd25519)
  }

  /**
   Content is admitted as signed exactly if the key it names has signed its envelope with a version 2 signature,
   and as unsigned exactly if it comes without any signature; a blank name or a revision out of range is refused.
   */
  lemma StatusSound(policy: Policy, r: Record, signature: Option<string>, version: int)
    ensures VerificationStatus(policy, r, signature, version) == Some(VerifiedEd25519)
            <==> && (exists i :: 0 <= i < |r.bulletinId| && !policy.isSpace(r.bulletinId[i]))
                 && 1 <= r.revision <= 0x1F_FFFF_FFFF_FFFF
                 && signature.Some? && signature.value != "" && version == 2
                 && |r.contentHash| == 64
                 && (forall i :: 0 <= i < 64 ==> '0' <= r.contentHash[i] <= '9' || 'a' <= r.contentHash[i] <= 'f')
                 && |r.publisher| == 64
                 && (forall i :: 0 <= i < 64 ==> '0' <= r.publisher[i] <= '9' || 'a' <= r.publisher[i] <= 'f')
                 && policy.verifies(r.publisher, signature.value,
                                    Envelope(if r.title == "" then r.(title := r.bulletinId) else r))
    ensures VerificationStatus(policy, r, signature, version) == Some(Unsigned)
            <==> && (exists i :: 0 <= i < |r.bulletinId| && !policy.isSpace(r.bulletinId[i]))
                 && 1 <= r.revision <= 0x1F_FFFF_FFFF_FFFF
                 && r.publisher == "unsigned" && signature.None?
  {
    hide Envelope;
    assert |UNSIGNED| == 8;
  }

  // ---------------------------------------------------------------- the signed text

  /** Characters that stand for themselves within a JSON string. */
  predicate IsPlain(s: string) {
    forall i :: 0 <= i < |s| ==> s[i] >= ' ' && s[i] != '"' && s[i] != '\\'
  }

  lemma {:induction false} PlainEscape(s: string)
    requires IsPlain(s)
    ensures Escape(s) == s
  {
    if s != "" {
      PlainEscape(s[1..]);
      assert s == [s[0]] + s[1..];
    }
  }

  /** The number a string of decimal digits stands for. */
  function NumberOf(s: string): int {
    if s == "" then 0 else 10 * NumberOf(s[..|s| - 1]) + (s[|s| - 1] as int - '0' as int)
  }

  /** The revision is written as its decimal digits, without leading zeros. */
  lemma {:induction false} DecimalReadsBack(n: nat)
    ensures NumberOf(Decimal(n)) == n
    ensures n > 0 ==> Decimal(n)[0] != '0'
  {
    var s := Decimal(n);
    if n < 10 {
      assert s[..0] == "";
    } else {
      DecimalReadsBack(n / 10);
      assert s[..|s| - 1] == Decimal(n / 10);
    }
  }

  lemma PlainQuote(s: string)
    requires IsPlain(s)
    ensures Quote(s) == "\"" + s + "\""
  {
    PlainEscape(s);
  }

  /** What is signed for a bulletin with a plain name and title, spelled out. */
  lemma PlainEnvelope(r: Record)
    requires r.revision >= 0 && IsPlain(r.bulletinId) && IsPlain(r.title)
    requires IsHexDigest(r.contentHash) && IsHexDigest(r.publisher)
    ensures exists digits ::
              && NumberOf(digits) == r.revision && (r.revision > 0 ==> digits != "" && digits[0] != '0')
              && Envelope(r) == "[\"TFP_BULLETIN\",2," + ("\"" + r.bulletinId + "\"") + "," + digits + ","
                                + ("\"" + r.title + "\"") + "," + ("\"" + r.contentHash + "\"") + ","
                                + ("\"" + r.publisher + "\"") + "]"
  {
    DecimalReadsBack(r.revision);
    PlainQuote(r.bulletinId);
    PlainQuote(r.title);
    PlainQuote(r.contentHash);
    PlainQuote(r.publisher);
    var digits := Decimal(r.revision);
    hide Quote, Decimal, NumberOf;
    assert NumberOf(digits) == r.revision;
  }

  lemma EscapeStep(s: string, c: char)
    ensures Escape([c] + s) == EscapeChar(c) + Escape(s)
  {
    assert ([c] + s)[1..] == s;
  }

  lemma Associates(x: string, y: string, z: string)
    ensures (x + y) + z == x + (y + z)
  {
  }

  /** Escaping works character by character. */
  lemma {:induction false} EscapeConcat(s: string, t: string)
    ensures Escape(s + t) == Escape(s) + Escape(t)
  {
    if s == "" {
      assert s + t == t;
    } else {
      hide *;
      hide *;
      var c, rest := s[0], s[1..];
      assert s == [c] + rest;
      Associates([c], rest, t);
      EscapeConcat(rest, t);
      EscapeStep(rest, c);
      EscapeStep(rest + t, c);
      Associates(EscapeChar(c), Escape(rest), Escape(t));
    }
    hide *;
  }

  lemma EscapeOne(c: char)
    ensures Escape([c]) == EscapeChar(c)
  {
    EscapeStep("", c);
    assert [c] + "" == [c];
  }

  /** The escapes of JSON; all other characters stand for themselves. */
  lemma EscapesSpelledOut(c: char)
    ensures c == '"' ==> Escape([c]) == "\\\""
    ensures c == '\\' ==> Escape([c]) == "\\\\"
    ensures c == '\n' ==> Escape([c]) == "\\n"
    ensures c == '\r' ==> Escape([c]) == "\\r"
    ensures c == '\t' ==> Escape([c]) == "\\t"
    ensures c == '\U{8}' ==> Escape([c]) == "\\b"
    ensures c == '\U{C}' ==> Escape([c]) == "\\f"
    ensures c == '\U{1F}' ==> Escape([c]) == "\\u001f"
    ensures IsPlain([c]) ==> Escape([c]) == [c]
  {
    EscapeOne(c);
    assert [c][0] == c;
  }

  // ---------------------------------------------------------------- the envelope is unambiguous

  /** Escaped characters form a prefix code that never starts with a quotation mark. */
  lemma EscapeCharPrefix(c: char, d: char, x: string, y: string)
    requires EscapeChar(c) + x == EscapeChar(d) + y
    ensures c == d && x == y
  {
    var s := EscapeChar(c) + x;
    var t := EscapeChar(d) + y;
    assert s[0] == EscapeChar(c)[0] && t[0] == EscapeChar(d)[0];
    assert |EscapeChar(c)| > 1 ==> s[1] == EscapeChar(c)[1];
    assert |EscapeChar(d)| > 1 ==> t[1] == EscapeChar(d)[1];
    if |EscapeChar(c)| == 6 && |EscapeChar(d)| == 6 {
      assert s[4] == HexChar(c as int / 16) && s[5] == HexChar(c as int % 16);
      assert t[4] == HexChar(d as int / 16) && t[5] == HexChar(d as int % 16);
    }
    assert c == d;
    assert x == s[|EscapeChar(c)|..] && y == t[|EscapeChar(d)|..];
  }

  lemma EscapeNotQuote(c: char, x: string, y: string)
    ensures EscapeChar(c) + x != "\"" + y
  {
    assert (EscapeChar(c) + x)[0] == EscapeChar(c)[0];
    assert ("\"" + y)[0] == '"';
  }

  /** The rest of a quoted string and what follows it. */
  function Closing(a: string, x: string): string {
    Escape(a) + "\"" + x
  }

  lemma ClosingStep(a: string, x: string)
    requires a != ""
    ensures Closing(a, x) == EscapeChar(a[0]) + Closing(a[1..], x)
  {
  }

  /** Whatever follows, a quoted string can be read back in only one way. */
  lemma {:induction false} ClosingUnique(a: string, b: string, x: string, y: string)
    requires Closing(a, x) == Closing(b, y)
    ensures a == b && x == y
  {
    assert Closing("", x) == "\"" + x && Closing("", y) == "\"" + y;
    if a != "" {
      ClosingStep(a, x);
      EscapeNotQuote(a[0], Closing(a[1..], x), y);
    }
    if b != "" {
      ClosingStep(b, y);
      EscapeNotQuote(b[0], Closing(b[1..], y), x);
    }
    hide Closing, EscapeChar;
    if a == "" {
      assert x == ("\"" + x)[1..] && y == ("\"" + y)[1..];
    } else {
      EscapeCharPrefix(a[0], b[0], Closing(a[1..], x), Closing(b[1..], y));
      ClosingUnique(a[1..], b[1..], x, y);
      assert a == [a[0]] + a[1..] && b == [b[0]] + b[1..];
    }
  }

  lemma QuoteUnique(a: string, b: string, x: string, y: string)
    requires Quote(a) + x == Quote(b) + y
    ensures a == b && x == y
  {
    assert (Quote(a) + x)[1..] == Closing(a, x);
    assert (Quote(b) + y)[1..] == Closing(b, y);
    ClosingUnique(a, b, x, y);
  }

  lemma {:induction false} DecimalInjective(m: nat, n: nat)
    requires Decimal(m) == Decimal(n)
    ensures m == n
  {
    if m >= 10 && n >= 10 {
      var s, t := Decimal(m / 10), Decimal(n / 10);
      assert s == (s + [Digit(m % 10)])[..|s|] && t == (t + [Digit(n % 10)])[..|t|];
      assert (s + [Digit(m % 10)])[|s|] == Digit(m % 10) && (t + [Digit(n % 10)])[|t|] == Digit(n % 10);
      DecimalInjective(m / 10, n / 10);
    }
  }

  lemma DigitsLonger(s: string, t: string, x: string, y: string)
    requires forall i :: 0 <= i < |t| ==> '0' <= t[i] <= '9'
    ensures |s| < |t| ==> s + "," + x != t + "," + y
  {
    if |s| < |t| {
      assert (s + "," + x)[|s|] == ',' && (t + "," + y)[|s|] == t[|s|];
    }
  }

  /** A run of digits ends at the first comma. */
  lemma DigitsUnique(s: string, t: string, x: string, y: string)
    requires forall i :: 0 <= i < |s| ==> '0' <= s[i] <= '9'
    requires forall i :: 0 <= i < |t| ==> '0' <= t[i] <= '9'
    requires s + "," + x == t + "," + y
    ensures s == t && x == y
  {
    DigitsLonger(s, t, x, y);
    DigitsLonger(t, s, y, x);
    var u, v := s + "," + x, t + "," + y;
    assert s == u[..|s|] && t == v[..|t|];
    assert x == u[|s| + 1..] && y == v[|t| + 1..];
  }

  const PREAMBLE := "[\"TFP_BULLETIN\",2,"

  function AfterRevision(r: Record): string {
    Quote(r.title) + ("," + (Quote(r.contentHash) + ("," + (Quote(r.publisher) + "]"))))
  }

  lemma EnvelopeShape(r: Record)
    requires r.revision >= 0
    ensures Envelope(r)[|PREAMBLE|..] == Quote(r.bulletinId) + ("," + (Decimal(r.revision) + "," + AfterRevision(r)))
  {
    hide Quote, Decimal;
    assert Envelope(r) == PREAMBLE + (Quote(r.bulletinId) + ("," + (Decimal(r.revision) + "," + AfterRevision(r))));
  }

  lemma AfterRevisionInjective(r: Record, s: Record)
    requires AfterRevision(r) == AfterRevision(s)
    ensures r.title == s.title && r.contentHash == s.contentHash && r.publisher == s.publisher
  {
    hide Quote;
    var u, v := "," + (Quote(r.contentHash) + ("," + (Quote(r.publisher) + "]"))),
        "," + (Quote(s.contentHash) + ("," + (Quote(s.publisher) + "]")));
    QuoteUnique(r.title, s.title, u, v);
    var u', v' := "," + (Quote(r.publisher) + "]"), "," + (Quote(s.publisher) + "]");
    assert Quote(r.contentHash) + u' == u[1..] && Quote(s.contentHash) + v' == v[1..];
    QuoteUnique(r.contentHash, s.contentHash, u', v');
    assert Quote(r.publisher) + "]" == u'[1..] && Quote(s.publisher) + "]" == v'[1..];
    QuoteUnique(r.publisher, s.publisher, "]", "]");
  }

  /** Different bulletins never share a signed text, whatever characters their fields contain. */
  lemma EnvelopeInjective(r: Record, s: Record)
    requires r.revision >= 0 && s.revision >= 0
    requires Envelope(r) == Envelope(s)
    ensures r == s
  {
    EnvelopeShape(r);
    EnvelopeShape(s);
    hide Envelope, Quote, Decimal, AfterRevision;
    var u, v := Decimal(r.revision) + "," + AfterRevision(r), Decimal(s.revision) + "," + AfterRevision(s);
    QuoteUnique(r.bulletinId, s.bulletinId, "," + u, "," + v);
    assert u == ("," + u)[1..] && v == ("," + v)[1..];
    DigitsUnique(Decimal(r.revision), Decimal(s.revision), AfterRevision(r), AfterRevision(s));
    DecimalInjective(r.revision, s.revision);
    AfterRevisionInjective(r, s);
  }

  // ---------------------------------------------------------------- revision policy

  datatype Verdict = Fresh | Duplicate | PublisherConflict | RevisionConflict | Stale

  /** The first record that decides, in list order. */
  function FirstHit(existing: seq<Record>, incoming: Record): Option<Verdict> {
    if existing == [] then None
    else
      var previous := existing[0];
      if previous.publisher != incoming.publisher then Some(PublisherConflict)
      else if previous.revision == incoming.revision then
        Some(if previous.contentHash == incoming.contentHash && previous.title == incoming.title then Duplicate
             else RevisionConflict)
      else FirstHit(existing[1..], incoming)
  }

  function MaxRevision(existing: seq<Record>): (m: int)
    requires existing != []
    ensures forall i :: 0 <= i < |existing| ==> existing[i].revision <= m
    ensures exists i :: 0 <= i < |existing| && existing[i].revision == m
  {
    if |existing| == 1 then existing[0].revision
    else
      var rest := MaxRevision(existing[1..]);
      var i :| 0 <= i < |existing| - 1 && existing[1..][i].revision == rest;
      assert existing[i + 1].revision == rest;
      assert forall j :: 0 < j < |existing| ==> existing[j] == existing[1..][j - 1];
      if existing[0].revision > rest then existing[0].revision else rest
  }

  function CheckRevision(existing: seq<Record>, incoming: Record): Verdict {
    match FirstHit(existing, incoming)
    case Some(v) => v
    case None => if existing != [] && incoming.revision < MaxRevision(existing) then Stale else Fresh
  }

  /** The loop over the existing records, with the closing comparison against their maximum. */
  method CheckRevisionLoop(existing: seq<Record>, incoming: Record) returns (v: Verdict)
    ensures v == CheckRevision(existing, incoming)
  {
    for i := 0 to |existing|
      invariant FirstHit(existing, incoming) == FirstHit(existing[i..], incoming)
    {
      var previous := existing[i];
      assert existing[i..][1..] == existing[i + 1..];
      if previous.publisher != incoming.publisher {
        return PublisherConflict;
      }
      if previous.revision == incoming.revision {
        var same := previous.contentHash == incoming.contentHash && previous.title == incoming.title;
        return if same then Duplicate else RevisionConflict;
      }
    }
    return if existing != [] && incoming.revision < MaxRevision(existing) then Stale else Fresh;
  }
}
