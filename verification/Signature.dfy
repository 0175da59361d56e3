/** Authentication of a webhook: the OenPay-Signature header
    "t=<unix seconds>,v1=<hex>" against the raw body. The keyed hash is a
    parameter; nothing about it is assumed. */
module Signature {
  import opened Text
  import opened Digits
  import opened Amounts
  import JsonNumber
  import JsString

  // ----- Splitting the header

  /** One more character in front of a split text. */
  function Extend(c: char, parts: seq<string>): (extended: seq<string>)
    requires parts != []
    ensures extended != []
  {
    if c == ',' then [""] + parts else [[c] + parts[0]] + parts[1..]
  }

  /** strings.Split(s, ",") */
  function Split(s: string): (parts: seq<string>)
    ensures parts != []
  {
    if s == "" then [""] else Extend(s[0], Split(s[1..]))
  }

  lemma ExtendConcat(c: char, xs: seq<string>, ys: seq<string>)
    requires xs != []
    ensures Extend(c, xs + ys) == Extend(c, xs) + ys
  {
  }

  lemma {:induction false} SplitJoined(a: string, b: string)
    ensures Split(a + "," + b) == Split(a) + Split(b)
  {
    var s := a + "," + b;
    if a == "" {
      assert s[1..] == b;
    } else {
      SplitJoined(a[1..], b);
      assert s[1..] == a[1..] + "," + b;
      ExtendConcat(a[0], Split(a[1..]), Split(b));
    }
  }

  /** strings.Cut(s, "=") */
  function Cut(s: string): Option<(string, string)> {
    if s == "" then None
    else if s[0] == '=' then Some(("", s[1..]))
    else match Cut(s[1..])
      case None => None
      case Some((before, after)) => Some(([s[0]] + before, after))
  }

  /** hex.DecodeString */
  function HexDecode(s: string): Option<string> {
    if s == "" then Some("")
    else if |s| == 1 || !JsString.IsHexDigit(s[0]) || !JsString.IsHexDigit(s[1]) then None
    else match HexDecode(s[2..])
      case None => None
      case Some(rest) => Some([(16 * JsString.HexValue(s[0]) + JsString.HexValue(s[1])) as char] + rest)
  }

  const MAC_SIZE := 32

  /** What one part of the header means to the verifier. */
  datatype Part = Stamp(value: string) | Candidate(mac: string) | Ignored

  function ReadPart(text: string): Part {
    match Cut(TrimSpace(text))
    case None => Ignored
    case Some((key, value)) =>
      if key == "t" then Stamp(value)
      else if key != "v1" then Ignored
      else match HexDecode(value)
        case None => Ignored
        case Some(decoded) => if |decoded| == MAC_SIZE then Candidate(decoded) else Ignored
  }

  function ReadParts(texts: seq<string>): seq<Part> {
    seq(|texts|, i requires 0 <= i < |texts| => ReadPart(texts[i]))
  }

  /** The parts of a header. */
  function Parts(header: string): seq<Part> {
    ReadParts(Split(header))
  }

  // ----- What the parts say

  /** The values of the t parts, in order. */
  function Stamps(parts: seq<Part>): seq<string> {
    if parts == [] then []
    else
      var last := parts[|parts| - 1];
      Stamps(parts[..|parts| - 1]) + if last.Stamp? then [last.value] else []
  }

  /** The well-formed v1 values, in order. */
  function Candidates(parts: seq<Part>): seq<string> {
    if parts == [] then []
    else
      var last := parts[|parts| - 1];
      Candidates(parts[..|parts| - 1]) + if last.Candidate? then [last.mac] else []
  }

  function LastStamp(stamps: seq<string>): string {
    if stamps == [] then "" else stamps[|stamps| - 1]
  }

  /** A t part after one that has a value. */
  predicate Repeats(stamps: seq<string>) {
    exists i :: 0 <= i < |stamps| - 1 && stamps[i] != ""
  }

  /** A nonnegative int64 in decimal digits, without a sign. */
  predicate IsTimestamp(text: string) {
    text != "" && AllDigits(text) && ToNat(text) <= 0x7FFF_FFFF_FFFF_FFFF
  }

  const NANOSECONDS := 1_000_000_000

  /** time.Time.Sub saturates at int64 nanoseconds. */
  function Age(now: int, seconds: int): int {
    var age := now - seconds * NANOSECONDS;
    if age > MAX_INT64 then MAX_INT64 else if age < MIN_INT64 then MIN_INT64 else age
  }

  predicate Fresh(now: int, tolerance: int, seconds: int) {
    -tolerance <= Age(now, seconds) <= tolerance
  }

  function Message(timestamp: string, body: string): string {
    timestamp + "." + body
  }

  type Mac = (string, string) -> string

  datatype Settings = Settings(secret: string, tolerance: int, now: int)

  datatype Verdict = Accepted | NotConfigured | TwoTimestamps | BadTimestamp | NoSignature | Stale | NoMatch

  /** The verdict after the scan of the header. */
  function Judge(mac: Mac, settings: Settings, timestamp: string, candidates: seq<string>, body: string): Verdict {
    var seconds := ParseInt(timestamp);
    if seconds.None? || timestamp == "" || timestamp[0] in {'-', '+'} then BadTimestamp
    else if candidates == [] then NoSignature
    else if !Fresh(settings.now, settings.tolerance, seconds.value) then Stale
    else if mac(settings.secret, Message(timestamp, body)) in candidates then Accepted
    else NoMatch
  }

  function Outcome(mac: Mac, settings: Settings, parts: seq<Part>, body: string): Verdict {
    if settings.secret == "" then NotConfigured
    else if Repeats(Stamps(parts)) then TwoTimestamps
    else Judge(mac, settings, LastStamp(Stamps(parts)), Candidates(parts), body)
  }

  // ----- The source's loops

  method Scan(texts: seq<string>) returns (repeated: bool, timestamp: string, candidates: seq<string>)
    ensures repeated <==> Repeats(Stamps(ReadParts(texts)))
    ensures !repeated ==> timestamp == LastStamp(Stamps(ReadParts(texts)))
    ensures !repeated ==> candidates == Candidates(ReadParts(texts))
  {
    ghost var parts := ReadParts(texts);
    timestamp, candidates := "", [];
    for i := 0 to |texts|
      invariant !Repeats(Stamps(parts[..i]))
      invariant timestamp == LastStamp(Stamps(parts[..i]))
      invariant candidates == Candidates(parts[..i])
    {
      ScanStep(parts, i);
      match ReadPart(texts[i])
      case Stamp(value) =>
        if timestamp != "" {
          RepeatsStay(parts, i + 1);
          return true, timestamp, candidates;
        }
        timestamp := value;
      case Candidate(decoded) =>
        candidates := candidates + [decoded];
      case Ignored =>
    }
    assert parts[..|texts|] == parts;
    repeated := false;
  }

  lemma ScanStep(parts: seq<Part>, i: nat)
    requires i < |parts|
    ensures Stamps(parts[..i + 1]) == Stamps(parts[..i]) + if parts[i].Stamp? then [parts[i].value] else []
    ensures Candidates(parts[..i + 1]) == Candidates(parts[..i]) + if parts[i].Candidate? then [parts[i].mac] else []
    ensures !Repeats(Stamps(parts[..i])) ==>
              (Repeats(Stamps(parts[..i + 1])) <==> parts[i].Stamp? && LastStamp(Stamps(parts[..i])) != "")
  {
    assert parts[..i + 1][..i] == parts[..i];
    var before, after := Stamps(parts[..i]), Stamps(parts[..i + 1]);
    if parts[i].Stamp? && LastStamp(before) != "" {
      assert after[|before| - 1] != "";
    }
  }

  lemma {:induction false} RepeatsStay(parts: seq<Part>, n: nat)
    requires n <= |parts| && Repeats(Stamps(parts[..n]))
    ensures Repeats(Stamps(parts))
    decreases |parts| - n
  {
    if n == |parts| {
      assert parts[..n] == parts;
    } else {
      var i :| 0 <= i < |Stamps(parts[..n])| - 1 && Stamps(parts[..n])[i] != "";
      assert parts[..n + 1][..n] == parts[..n];
      assert Stamps(parts[..n + 1])[i] != "";
      RepeatsStay(parts, n + 1);
    }
  }

  method VerifyWebhookSignature(mac: Mac, settings: Settings, header: string, body: string) returns (verdict: Verdict)
    ensures verdict == Outcome(mac, settings, Parts(header), body)
  {
    if settings.secret == "" {
      return NotConfigured;
    }
    var repeated, timestamp, candidates := Scan(Split(header));
    if repeated {
      return TwoTimestamps;
    }
    var seconds := ParseInt(timestamp);
    if seconds.None? || timestamp == "" || timestamp[0] == '-' || timestamp[0] == '+' {
      return BadTimestamp;
    }
    if |candidates| == 0 {
      return NoSignature;
    }
    var age := Age(settings.now, seconds.value);
    if age > settings.tolerance || age < -settings.tolerance {
      return Stale;
    }
    var expected := mac(settings.secret, timestamp + "." + body);
    for i := 0 to |candidates|
      invariant expected !in candidates[..i]
    {
      if candidates[i] == expected {
        return Accepted;
      }
    }
    return NoMatch;
  }

  // ----- Acceptance, exactly

  lemma TimestampsParse(text: string)
    ensures ParseInt(text).Some? && text != "" && text[0] !in {'-', '+'} <==> IsTimestamp(text)
    ensures IsTimestamp(text) ==> ParseInt(text) == Some(ToNat(text))
  {
  }

  /** A header is accepted exactly when no t part but the last has a value, that one is
      an unsigned int64 within tolerance, and some v1 value is the keyed hash of t.body. */
  lemma AcceptedExactly(mac: Mac, settings: Settings, parts: seq<Part>, body: string)
    ensures Outcome(mac, settings, parts, body) == Accepted <==>
            var t := LastStamp(Stamps(parts));
            && settings.secret != ""
            && (forall i :: 0 <= i < |Stamps(parts)| - 1 ==> Stamps(parts)[i] == "")
            && IsTimestamp(t)
            && Fresh(settings.now, settings.tolerance, ToNat(t))
            && Candidate(mac(settings.secret, t + "." + body)) in parts
  {
    TimestampsParse(LastStamp(Stamps(parts)));
    CandidateMembership(parts, mac(settings.secret, Message(LastStamp(Stamps(parts)), body)));
  }

  lemma {:induction false} CandidateMembership(parts: seq<Part>, mac: string)
    ensures mac in Candidates(parts) <==> Candidate(mac) in parts
  {
    if parts != [] {
      var n := |parts| - 1;
      CandidateMembership(parts[..n], mac);
      assert parts == parts[..n] + [parts[n]];
    }
  }

  /** Below the largest duration, saturation does not matter. */
  lemma FreshnessIsExact(now: int, tolerance: int, seconds: int)
    requires 0 <= tolerance < 0x7FFF_FFFF_FFFF_FFFF
    ensures Fresh(now, tolerance, seconds) <==> -tolerance <= now - seconds * 1_000_000_000 <= tolerance
  {
  }

  /** The largest duration takes any stamp that is not ahead of the clock by more. */
  lemma LargestTolerance(now: int, seconds: int)
    ensures Fresh(now, 0x7FFF_FFFF_FFFF_FFFF, seconds) <==>
            now - seconds * 1_000_000_000 > -0x8000_0000_0000_0000
  {
  }

  // ----- Every verdict, exactly

  predicate OneStampOnly(parts: seq<Part>) {
    forall i :: 0 <= i < |Stamps(parts)| - 1 ==> Stamps(parts)[i] == ""
  }

  predicate IsSigned(parts: seq<Part>) {
    exists i :: 0 <= i < |parts| && parts[i].Candidate?
  }

  /** Which check refuses a header: each is reached only if the ones before it passed. */
  lemma VerdictsExactly(mac: Mac, settings: Settings, parts: seq<Part>, body: string)
    ensures var verdict, stamps := Outcome(mac, settings, parts, body), Stamps(parts);
            var t := if stamps == [] then "" else stamps[|stamps| - 1];
            if settings.secret == "" then verdict == NotConfigured
            else if !OneStampOnly(parts) then verdict == TwoTimestamps
            else if !IsTimestamp(t) then verdict == BadTimestamp
            else if !IsSigned(parts) then verdict == NoSignature
            else if !Fresh(settings.now, settings.tolerance, ToNat(t)) then verdict == Stale
            else if Candidate(mac(settings.secret, t + "." + body)) !in parts then verdict == NoMatch
            else verdict == Accepted
  {
    hide Stamps, Candidates, ParseInt, Fresh, ToNat, IsTimestamp;
    var t := LastStamp(Stamps(parts));
    TimestampsParse(t);
    CandidateMembership(parts, mac(settings.secret, Message(t, body)));
    AnyCandidate(parts);
    RepeatsExactly(parts);
  }

  lemma RepeatsExactly(parts: seq<Part>)
    ensures Repeats(Stamps(parts)) <==> !OneStampOnly(parts)
  {
  }

  lemma {:induction false} AnyCandidate(parts: seq<Part>)
    ensures Candidates(parts) != [] <==> IsSigned(parts)
  {
    if parts != [] {
      var n := |parts| - 1;
      AnyCandidate(parts[..n]);
      assert forall i :: 0 <= i < n ==> parts[..n][i] == parts[i];
    }
  }

  // ----- What does not matter

  lemma {:induction false} StampsConcat(xs: seq<Part>, ys: seq<Part>)
    ensures Stamps(xs + ys) == Stamps(xs) + Stamps(ys)
    ensures Candidates(xs + ys) == Candidates(xs) + Candidates(ys)
  {
    if ys == [] {
      assert xs + ys == xs;
    } else {
      var n := |ys| - 1;
      StampsConcat(xs, ys[..n]);
      assert (xs + ys)[..|xs + ys| - 1] == xs + ys[..n];
    }
  }

  lemma {:induction false} IgnoredPartsSayNothing(parts: seq<Part>)
    requires forall i :: 0 <= i < |parts| ==> parts[i].Ignored?
    ensures Stamps(parts) == [] && Candidates(parts) == []
  {
    if parts != [] {
      IgnoredPartsSayNothing(parts[..|parts| - 1]);
    }
  }

  lemma PartsOfJoined(a: string, b: string)
    ensures Parts(a + "," + b) == Parts(a) + Parts(b)
  {
    SplitJoined(a, b);
  }

  lemma JunkPartsSayNothing(x: seq<Part>, junk: seq<Part>, y: seq<Part>)
    requires forall i :: 0 <= i < |junk| ==> junk[i].Ignored?
    ensures Stamps(x + junk + y) == Stamps(x + y) && Candidates(x + junk + y) == Candidates(x + y)
  {
    IgnoredPartsSayNothing(junk);
    StampsConcat(x, junk);
    StampsConcat(x + junk, y);
    StampsConcat(x, y);
  }

  /** Inserting unknown or malformed parts anywhere, also at the front or at the end,
      changes nothing about the verdict. */
  lemma JunkIsIgnored(mac: Mac, settings: Settings, a: string, junk: string, b: string, body: string)
    requires forall i :: 0 <= i < |Parts(junk)| ==> Parts(junk)[i].Ignored?
    ensures Outcome(mac, settings, Parts(a + "," + junk + "," + b), body)
         == Outcome(mac, settings, Parts(a + "," + b), body)
    ensures Outcome(mac, settings, Parts(junk + "," + b), body) == Outcome(mac, settings, Parts(b), body)
    ensures Outcome(mac, settings, Parts(a + "," + junk), body) == Outcome(mac, settings, Parts(a), body)
  {
    hide Parts, Judge, Stamps, Candidates;
    PartsOfJoined(junk, b);
    JunkPartsSayNothing([], Parts(junk), Parts(b));
    JunkPartsSayNothing(Parts(a), Parts(junk), []);
    assert [] + Parts(junk) + Parts(b) == Parts(junk) + Parts(b) && [] + Parts(b) == Parts(b);
    assert Parts(a) + Parts(junk) + [] == Parts(a) + Parts(junk) && Parts(a) + [] == Parts(a);
    PartsOfJoined(a, b);
    PartsOfJoined(a, junk);
    PartsOfJoined(a + "," + junk, b);
    JunkPartsSayNothing(Parts(a), Parts(junk), Parts(b));
  }

  lemma {:induction false} StampCount(parts: seq<Part>, t: string)
    ensures multiset(Stamps(parts))[t] == multiset(parts)[Stamp(t)]
  {
    if parts != [] {
      var n := |parts| - 1;
      StampCount(parts[..n], t);
      assert parts == parts[..n] + [parts[n]];
    }
  }

  /** With one t part, the order of the parts does not matter. */
  lemma OrderIsIgnored(mac: Mac, settings: Settings, xs: seq<Part>, ys: seq<Part>, body: string)
    requires multiset(xs) == multiset(ys) && |Stamps(xs)| == 1
    ensures Outcome(mac, settings, xs, body) == Outcome(mac, settings, ys, body)
  {
    SameStamps(xs, ys);
    if Candidates(xs) != [] {
      SomeCandidates(xs, ys);
    }
    if Candidates(ys) != [] {
      SomeCandidates(ys, xs);
    }
    SameCandidate(xs, ys, mac(settings.secret, Message(LastStamp(Stamps(xs)), body)));
  }

  lemma SameCandidate(xs: seq<Part>, ys: seq<Part>, hash: string)
    requires multiset(xs) == multiset(ys)
    ensures hash in Candidates(xs) <==> hash in Candidates(ys)
  {
    CandidateMembership(xs, hash);
    CandidateMembership(ys, hash);
    assert Candidate(hash) in multiset(xs) <==> Candidate(hash) in multiset(ys);
  }

  lemma SomeCandidates(xs: seq<Part>, ys: seq<Part>)
    requires multiset(xs) == multiset(ys) && Candidates(xs) != []
    ensures Candidates(ys) != []
  {
    SameCandidate(xs, ys, Candidates(xs)[0]);
  }

  lemma {:induction false} OneValue(values: seq<string>, t: string)
    requires forall i :: 0 <= i < |values| ==> values[i] == t
    ensures multiset(values)[t] == |values|
  {
    if values != [] {
      var n := |values| - 1;
      OneValue(values[..n], t);
      assert values == values[..n] + [t];
    }
  }

  lemma SameStamps(xs: seq<Part>, ys: seq<Part>)
    requires multiset(xs) == multiset(ys) && |Stamps(xs)| == 1
    ensures Stamps(xs) == Stamps(ys)
  {
    var t, stamps := Stamps(xs)[0], Stamps(ys);
    assert Stamps(xs) == [t];
    forall i | 0 <= i < |stamps| ensures stamps[i] == t {
      assert stamps[i] in multiset(stamps);
      StampCount(ys, stamps[i]);
      StampCount(xs, stamps[i]);
    }
    OneValue(stamps, t);
    StampCount(xs, t);
    StampCount(ys, t);
  }

  /** Distinct pairs of timestamp and body give distinct signed messages. */
  lemma MessageIsUnambiguous(t: string, u: string, body: string, other: string)
    requires IsTimestamp(t) && IsTimestamp(u)
    ensures Message(t, body) == t + "." + body
    ensures Message(t, body) == Message(u, other) <==> t == u && body == other
  {
    if Message(t, body) == Message(u, other) {
      assert Message(t, body) == t + ("." + body) && Message(u, other) == u + ("." + other);
      JsonNumber.DigitRunOf(t, "." + body);
      JsonNumber.DigitRunOf(u, "." + other);
      assert ("." + body)[1..] == body && ("." + other)[1..] == other;
    }
  }

  // ----- A header as the provider writes it

  /** hex.EncodeToString */
  function HexEncode(bytes: string): string
    requires forall i :: 0 <= i < |bytes| ==> bytes[i] as int < 256
  {
    if bytes == "" then ""
    else [JsString.HexDigit(bytes[0] as int / 16), JsString.HexDigit(bytes[0] as int % 16)] + HexEncode(bytes[1..])
  }

  /** No comma, no equals sign and no white space. */
  predicate Word(s: string) {
    forall i :: 0 <= i < |s| ==> s[i] != ',' && s[i] != '=' && !IsSpace(s[i])
  }

  lemma {:induction false} HexRoundTrip(bytes: string)
    requires forall i :: 0 <= i < |bytes| ==> bytes[i] as int < 256
    ensures HexDecode(HexEncode(bytes)) == Some(bytes) && Word(HexEncode(bytes))
  {
    if bytes != "" {
      var b, rest := bytes[0] as int, HexEncode(bytes[1..]);
      HexRoundTrip(bytes[1..]);
      HexPair(b, rest);
      assert bytes == [bytes[0]] + bytes[1..];
    }
  }

  lemma HexPair(b: int, rest: string)
    requires 0 <= b < 256 && Word(rest) && HexDecode(rest).Some?
    ensures var text := [JsString.HexDigit(b / 16), JsString.HexDigit(b % 16)] + rest;
            Word(text) && HexDecode(text) == Some([b as char] + HexDecode(rest).value)
  {
    var text := [JsString.HexDigit(b / 16), JsString.HexDigit(b % 16)] + rest;
    assert text[2..] == rest;
    assert forall i :: 2 <= i < |text| ==> text[i] == rest[i - 2];
  }

  lemma {:induction false} CutAtEquals(key: string, value: string)
    requires Word(key)
    ensures Cut(key + "=" + value) == Some((key, value))
  {
    var s := key + "=" + value;
    if key == "" {
      assert s[1..] == value;
    } else {
      CutAtEquals(key[1..], value);
      assert s[0] == key[0] && s[1..] == key[1..] + "=" + value;
      assert [key[0]] + key[1..] == key;
    }
  }

  lemma {:induction false} SplitWord(s: string)
    requires forall i :: 0 <= i < |s| ==> s[i] != ','
    ensures Split(s) == [s]
  {
    if s != "" {
      SplitWord(s[1..]);
      assert [s[0]] + s[1..] == s;
    }
  }

  lemma ReadsKeyValue(key: string, value: string)
    requires Word(key) && Word(value) && key != ""
    ensures TrimSpace(key + "=" + value) == key + "=" + value
    ensures Split(key + "=" + value) == [key + "=" + value]
    ensures Cut(TrimSpace(key + "=" + value)) == Some((key, value))
  {
    var s := key + "=" + value;
    assert forall i :: 0 <= i < |s| ==> s[i] != ',' && !IsSpace(s[i]) by {
      forall i | 0 <= i < |s| ensures s[i] != ',' && !IsSpace(s[i]) {
        assert i > |key| ==> s[i] == value[i - |key| - 1];
      }
    }
    TrimSpaceTrims(s);
    SplitWord(s);
    CutAtEquals(key, value);
  }

  predicate AllHex(s: string) {
    forall i :: 0 <= i < |s| ==> JsString.IsHexDigit(s[i])
  }

  /** A text is decoded exactly when it has an even number of hex digits and no other character. */
  lemma {:induction false} HexExactly(s: string)
    ensures HexDecode(s).Some? <==> |s| % 2 == 0 && AllHex(s)
    ensures HexDecode(s).Some? ==> 2 * |HexDecode(s).value| == |s|
    decreases |s|
  {
    if |s| >= 2 {
      HexExactly(s[2..]);
      assert AllHex(s) <==> JsString.IsHexDigit(s[0]) && JsString.IsHexDigit(s[1]) && AllHex(s[2..]) by {
        assert forall i :: 2 <= i < |s| ==> s[i] == s[2..][i - 2];
      }
    }
  }

  lemma {:induction false} CutJoins(s: string)
    requires Cut(s).Some?
    ensures var (key, value) := Cut(s).value; s == key + ("=" + value)
  {
    if s[0] != '=' {
      CutJoins(s[1..]);
      var (key, value) := Cut(s[1..]).value;
      assert [s[0]] + s[1..] == s;
      assert ([s[0]] + key) + ("=" + value) == [s[0]] + (key + ("=" + value));
    }
  }

  /** The bytes of a decoded v1 value, two digits each. */
  lemma {:induction false} HexBytes(s: string, i: nat)
    requires HexDecode(s).Some? && 2 * i + 1 < |s|
    ensures i < |HexDecode(s).value| && JsString.IsHexDigit(s[2 * i]) && JsString.IsHexDigit(s[2 * i + 1])
    ensures HexDecode(s).value[i] as int == 16 * JsString.HexValue(s[2 * i]) + JsString.HexValue(s[2 * i + 1])
    decreases |s|
  {
    HexExactly(s);
    if i > 0 {
      HexBytes(s[2..], i - 1);
      assert s[2..][2 * (i - 1)] == s[2 * i] && s[2..][2 * (i - 1) + 1] == s[2 * i + 1];
    }
  }

  /** A part, trimmed, is a timestamp exactly as t=value, and a candidate exactly as v1=
      with 64 hex digits. */
  lemma PartExactly(text: string)
    ensures forall value :: ReadPart(text) == Stamp(value) <==> TrimSpace(text) == "t" + "=" + value
    ensures var s := TrimSpace(text);
            && (ReadPart(text).Candidate? <==> |s| == 67 && s[..3] == "v1=" && AllHex(s[3..]))
            && (ReadPart(text).Candidate? ==> HexDecode(s[3..]) == Some(ReadPart(text).mac))
  {
    var s := TrimSpace(text);
    assert Word("t") && Word("v1");
    forall value ensures Cut("t" + "=" + value) == Some(("t", value)) {
      CutAtEquals("t", value);
    }
    if |s| >= 3 && s[..3] == "v1=" {
      CutAtEquals("v1", s[3..]);
      assert s == "v1" + "=" + s[3..];
    }
    if Cut(s).Some? {
      var (key, value) := Cut(s).value;
      CutJoins(s);
      assert key + ("=" + value) == key + "=" + value;
      assert key == "v1" ==> s[..3] == "v1=" && s[3..] == value;
      HexExactly(value);
    }
  }

  /** The header of a message with its keyed hash. */
  function Header(timestamp: string, mac: string): string
    requires forall i :: 0 <= i < |mac| ==> mac[i] as int < 256
  {
    "t" + "=" + timestamp + "," + ("v1" + "=" + HexEncode(mac))
  }

  lemma HeaderParts(timestamp: string, mac: string)
    requires IsTimestamp(timestamp)
    requires |mac| == MAC_SIZE && forall i :: 0 <= i < |mac| ==> mac[i] as int < 256
    ensures Parts(Header(timestamp, mac)) == [Stamp(timestamp), Candidate(mac)]
  {
    hide TrimSpace, Split, Cut, HexDecode, HexEncode;
    assert Word(timestamp) && Word("t") && Word("v1");
    HexRoundTrip(mac);
    ReadsKeyValue("t", timestamp);
    ReadsKeyValue("v1", HexEncode(mac));
    PartsOfJoined("t" + "=" + timestamp, "v1" + "=" + HexEncode(mac));
    assert Parts("t" + "=" + timestamp) == [Stamp(timestamp)];
    assert Parts("v1" + "=" + HexEncode(mac)) == [Candidate(mac)];
  }

  lemma OneStamp(timestamp: string, hash: string)
    ensures Stamps([Stamp(timestamp), Candidate(hash)]) == [timestamp]
  {
    var parts := [Stamp(timestamp), Candidate(hash)];
    assert parts[..1] == [Stamp(timestamp)] && parts[..1][..0] == [];
    assert Stamps(parts[..1]) == [timestamp];
  }

  /** A header written for a body is accepted exactly while it is fresh, and for
      another body or under another secret exactly if the keyed hashes agree. */
  lemma GenuineHeaderIsAccepted(
    mac: Mac, settings: Settings, secret: string, timestamp: string, signed: string, body: string)
    requires timestamp != "" && AllDigits(timestamp) && ToNat(timestamp) <= 0x7FFF_FFFF_FFFF_FFFF
    requires settings.secret != "" && 0 <= settings.tolerance < 0x7FFF_FFFF_FFFF_FFFF
    requires var hash := mac(secret, timestamp + "." + signed);
             |hash| == 32 && forall i :: 0 <= i < |hash| ==> hash[i] as int < 256
    ensures var hash := mac(secret, timestamp + "." + signed);
            var header := "t=" + timestamp + ",v1=" + HexEncode(hash);
            Outcome(mac, settings, Parts(header), body) == Accepted <==>
            && -settings.tolerance <= settings.now - ToNat(timestamp) * 1_000_000_000 <= settings.tolerance
            && mac(settings.secret, timestamp + "." + body) == hash
  {
    var hash := mac(secret, timestamp + "." + signed);
    var header := "t=" + timestamp + ",v1=" + HexEncode(hash);
    assert header == Header(timestamp, hash);
    GenuineParts(mac, settings, timestamp, hash, body);
    FreshnessIsExact(settings.now, settings.tolerance, ToNat(timestamp));
  }

  lemma GenuineParts(mac: Mac, settings: Settings, timestamp: string, hash: string, body: string)
    requires IsTimestamp(timestamp) && settings.secret != ""
    requires |hash| == MAC_SIZE && forall i :: 0 <= i < |hash| ==> hash[i] as int < 256
    ensures Outcome(mac, settings, Parts(Header(timestamp, hash)), body) == Accepted <==>
            && Fresh(settings.now, settings.tolerance, ToNat(timestamp))
            && mac(settings.secret, timestamp + "." + body) == hash
  {
    var parts := [Stamp(timestamp), Candidate(hash)];
    HeaderParts(timestamp, hash);
    AcceptedExactly(mac, settings, parts, body);
    OneStamp(timestamp, hash);
  }
}
