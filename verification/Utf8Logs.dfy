/** Log excerpts under a byte budget: UTF-8 as in section 3 of RFC 3629, over strings of Unicode scalar values. */
module Utf8Logs {
  import opened Options

  type Byte = b: int | 0 <= b < 256

  // ---- encoding ----------------------------------------------------------------------------------------

  function Continuation(n: nat): Byte { 0x80 + n % 64 }

  function EncodeChar(c: char): (bytes: seq<Byte>)
    ensures 1 <= |bytes| <= 4
  {
    var n := c as int;
    if n < 0x80 then [n]
    else if n < 0x800 then [0xC0 + n / 64, Continuation(n)]
    else if n < 0x1_0000 then [0xE0 + n / 4096, Continuation(n / 64), Continuation(n)]
    else [0xF0 + n / 262144, Continuation(n / 4096), Continuation(n / 64), Continuation(n)]
  }

  function Encode(s: string): seq<Byte> {
    if s == "" then [] else EncodeChar(s[0]) + Encode(s[1..])
  }

  function Size(s: string): nat { |Encode(s)| }

  // ---- decoding, ill-formed bytes dropped --------------------------------------------------------------

  /** How many bytes the sequence takes that starts with b; none if no sequence does. */
  function Length(b: Byte): nat {
    if b < 0x80 then 1
    else if 0xC2 <= b <= 0xDF then 2
    else if 0xE0 <= b <= 0xEF then 3
    else if 0xF0 <= b <= 0xF4 then 4
    else 0
  }

  /** What a byte holds beyond its mark bits. */
  function Payload(b: int, mark: int): int { b - mark }

  predicate Follows(b: Byte) { 0x80 <= b < 0xC0 }

  predicate Scalar(n: int) { 0 <= n < 0xD800 || 0xE000 <= n < 0x11_0000 }

  /** The character that the bytes begin with, if they begin with a well-formed sequence. */
  function Front(bytes: seq<Byte>): Option<char> {
    if bytes == [] || |bytes| < Length(bytes[0]) then None
    else
      var b := bytes[0];
      match Length(b)
      case 1 => Some(b as char)
      case 2 => if Follows(bytes[1]) then Some((64 * Payload(b, 0xC0) + Payload(bytes[1], 0x80)) as char) else None
      case 3 =>
        var n := 4096 * Payload(b, 0xE0) + 64 * Payload(bytes[1], 0x80) + Payload(bytes[2], 0x80);
        if Follows(bytes[1]) && Follows(bytes[2]) && n >= 0x800 && Scalar(n) then Some(n as char) else None
      case 4 =>
        var n := 262144 * Payload(b, 0xF0) + 4096 * Payload(bytes[1], 0x80) + 64 * Payload(bytes[2], 0x80)
                 + Payload(bytes[3], 0x80);
        if Follows(bytes[1]) && Follows(bytes[2]) && Follows(bytes[3]) && n >= 0x1_0000 && Scalar(n)
        then Some(n as char)
        else None
      case _ => None
  }

  function Decode(bytes: seq<Byte>): string {
    if bytes == [] then ""
    else if Front(bytes).Some? then [Front(bytes).value] + Decode(bytes[Length(bytes[0])..])
    else Decode(bytes[1..])
  }

  function Utf8Prefix(value: string, maxBytes: nat): (string, bool) {
    var encoded := Encode(value);
    if |encoded| <= maxBytes then (value, false) else (Decode(encoded[..maxBytes]), true)
  }

  lemma Digits(n: nat)
    ensures n == 64 * (n / 64) + n % 64
    ensures n == 4096 * (n / 4096) + 64 * (n / 64 % 64) + n % 64
    ensures n == 262144 * (n / 262144) + 4096 * (n / 4096 % 64) + 64 * (n / 64 % 64) + n % 64
  {
    assert n / 64 / 64 == n / 4096 && n / 4096 / 64 == n / 262144;
  }

  lemma FrontOfTwo(c: char, rest: seq<Byte>)
    requires c as int < 0x800
    ensures Front(EncodeChar(c) + rest) == Some(c) && Length((EncodeChar(c) + rest)[0]) == |EncodeChar(c)|
  {
    Digits(c as int);
  }

  lemma FrontOfThree(c: char, rest: seq<Byte>)
    requires 0x800 <= c as int < 0x1_0000
    ensures Front(EncodeChar(c) + rest) == Some(c) && Length((EncodeChar(c) + rest)[0]) == |EncodeChar(c)|
  {
    Digits(c as int);
  }

  lemma FrontOfFour(c: char, rest: seq<Byte>)
    requires 0x1_0000 <= c as int
    ensures Front(EncodeChar(c) + rest) == Some(c) && Length((EncodeChar(c) + rest)[0]) == |EncodeChar(c)|
  {
    Digits(c as int);
  }

  lemma FrontOfEncoded(c: char, rest: seq<Byte>)
    ensures Front(EncodeChar(c) + rest) == Some(c) && Length((EncodeChar(c) + rest)[0]) == |EncodeChar(c)|
  {
    if c as int < 0x800 {
      FrontOfTwo(c, rest);
    } else if c as int < 0x1_0000 {
      FrontOfThree(c, rest);
    } else {
      FrontOfFour(c, rest);
    }
  }

  lemma By64(q: nat, r: nat)
    requires r < 64
    ensures (64 * q + r) / 64 == q && (64 * q + r) % 64 == r
  {
  }

  lemma QuotientTwice(n: nat)
    ensures n / 4096 == n / 64 / 64
  {
  }

  lemma QuotientThrice(n: nat)
    ensures n / 262144 == n / 4096 / 64
  {
  }

  lemma EncodedTwo(c: char, p: nat, x: nat)
    requires 2 <= p < 32 && x < 64 && c as int == 64 * p + x
    ensures EncodeChar(c) == [0xC0 + p, 0x80 + x]
  {
    By64(p, x);
  }

  lemma EncodedThree(c: char, p: nat, x: nat, y: nat)
    requires p < 16 && x < 64 && y < 64 && 0x800 <= c as int == 64 * (64 * p + x) + y
    ensures EncodeChar(c) == [0xE0 + p, 0x80 + x, 0x80 + y]
  {
    By64(64 * p + x, y);
    By64(p, x);
    QuotientTwice(c as int);
  }

  lemma EncodedFour(c: char, p: nat, x: nat, y: nat, z: nat)
    requires p < 8 && x < 64 && y < 64 && z < 64 && 0x1_0000 <= c as int == 64 * (64 * (64 * p + x) + y) + z
    ensures EncodeChar(c) == [0xF0 + p, 0x80 + x, 0x80 + y, 0x80 + z]
  {
    By64(64 * (64 * p + x) + y, z);
    By64(64 * p + x, y);
    By64(p, x);
    QuotientTwice(c as int);
    QuotientThrice(c as int);
  }

  /** What is recognised was encoded that way. */
  lemma FrontIsEncoded(bytes: seq<Byte>)
    requires Front(bytes).Some?
    ensures EncodeChar(Front(bytes).value) <= bytes
  {
    var c, n := Front(bytes).value, Length(bytes[0]);
    if n == 2 {
      EncodedTwo(c, bytes[0] - 0xC0, bytes[1] - 0x80);
    } else if n == 3 {
      EncodedThree(c, bytes[0] - 0xE0, bytes[1] - 0x80, bytes[2] - 0x80);
    } else if n == 4 {
      EncodedFour(c, bytes[0] - 0xF0, bytes[1] - 0x80, bytes[2] - 0x80, bytes[3] - 0x80);
    }
  }

  /** The decoder recognises exactly the encodings. */
  lemma FrontExactly(bytes: seq<Byte>, c: char)
    ensures Front(bytes) == Some(c) <==> EncodeChar(c) <= bytes
  {
    if EncodeChar(c) <= bytes {
      FrontOfEncoded(c, bytes[|EncodeChar(c)|..]);
      assert bytes == EncodeChar(c) + bytes[|EncodeChar(c)|..];
    }
    if Front(bytes) == Some(c) { FrontIsEncoded(bytes); }
  }

  /** A sequence cut short decodes to nothing. */
  lemma CutSequence(c: char, n: nat)
    requires n < |EncodeChar(c)|
    ensures Decode(EncodeChar(c)[..n]) == ""
  {
    var cut := EncodeChar(c)[..n];
    if n > 0 {
      FrontOfEncoded(c, []);
      assert EncodeChar(c) + [] == EncodeChar(c);
      assert Front(cut) == None && forall i :: 1 <= i < n ==> Follows(cut[i]);
      AllFollow(cut[1..]);
    }
  }

  lemma {:induction false} AllFollow(bytes: seq<Byte>)
    requires forall b :: b in bytes ==> Follows(b)
    ensures Decode(bytes) == ""
  {
    if bytes != [] {
      assert bytes[0] in bytes;
      AllFollow(bytes[1..]);
    }
  }

  /** How many leading characters fit. */
  function Fitting(s: string, maxBytes: nat): (k: nat)
    ensures k <= |s|
  {
    if s == "" || |EncodeChar(s[0])| > maxBytes then 0 else 1 + Fitting(s[1..], maxBytes - |EncodeChar(s[0])|)
  }

  lemma {:induction false} DecodeOfCut(s: string, n: nat)
    requires n <= Size(s)
    ensures Decode(Encode(s)[..n]) == s[..Fitting(s, n)]
  {
    if s != "" {
      var first := EncodeChar(s[0]);
      if n < |first| {
        assert Encode(s)[..n] == first[..n];
        CutSequence(s[0], n);
      } else {
        var rest := Encode(s[1..])[..n - |first|];
        assert Encode(s)[..n] == first + rest;
        FrontOfEncoded(s[0], rest);
        assert (first + rest)[|first|..] == rest;
        DecodeOfCut(s[1..], n - |first|);
        assert s[..Fitting(s, n)] == [s[0]] + s[1..][..Fitting(s, n) - 1];
      }
    }
  }

  lemma SizeOfFirst(s: string, k: nat)
    requires 0 < k <= |s|
    ensures Size(s[..k]) == |EncodeChar(s[0])| + Size(s[1..][..k - 1])
  {
    assert s[..k][1..] == s[1..][..k - 1];
  }

  lemma {:induction false} FittingIsLongest(s: string, maxBytes: nat)
    ensures var k := Fitting(s, maxBytes);
            && Size(s[..k]) <= maxBytes
            && (k < |s| ==> maxBytes - Size(s[..k]) < |EncodeChar(s[k])|)
            && (k == |s| <==> Size(s) <= maxBytes)
  {
    if s != "" && |EncodeChar(s[0])| <= maxBytes {
      var k := Fitting(s, maxBytes);
      FittingIsLongest(s[1..], maxBytes - |EncodeChar(s[0])|);
      SizeOfFirst(s, k);
      SizeOfFirst(s, |s|);
      assert s[..|s|] == s && s[1..][..|s| - 1] == s[1..];
    } else {
      assert s[..0] == "";
    }
  }

  lemma {:induction false} SizeOfConcat(a: string, b: string)
    ensures Size(a + b) == Size(a) + Size(b)
  {
    if a == "" {
      assert a + b == b;
    } else {
      assert (a + b)[1..] == a[1..] + b;
      SizeOfConcat(a[1..], b);
    }
  }

  /** Decoding undoes encoding. */
  lemma DecodeOfEncode(s: string)
    ensures Decode(Encode(s)) == s
  {
    DecodeOfCut(s, Size(s));
    FittingIsLongest(s, Size(s));
    assert Encode(s)[..Size(s)] == Encode(s) && s[..|s|] == s;
  }

  ghost predicate LongestPrefix(text: string, value: string, maxBytes: nat) {
    text <= value && Size(text) <= maxBytes && forall k :: |text| < k <= |value| ==> Size(value[..k]) > maxBytes
  }

  /** The longest prefix that fits; at most three bytes stay unused if anything is cut, and the flag says whether. */
  lemma PrefixIsLongest(value: string, maxBytes: nat)
    ensures var (text, truncated) := Utf8Prefix(value, maxBytes);
            && LongestPrefix(text, value, maxBytes)
            && (truncated <==> text != value)
            && (truncated ==> maxBytes - Size(text) <= 3)
  {
    var k := Fitting(value, maxBytes);
    FittingIsLongest(value, maxBytes);
    if Size(value) > maxBytes { DecodeOfCut(value, maxBytes); }
    assert value[..|value|] == value;
    forall j | k < j <= |value| ensures Size(value[..j]) > maxBytes { LongerIsLarger(value, k, j); }
  }

  lemma LongerIsLarger(s: string, k: nat, j: nat)
    requires k < j <= |s|
    ensures Size(s[..j]) >= Size(s[..k]) + |EncodeChar(s[k])|
  {
    assert s[..j] == s[..k] + ([s[k]] + s[k + 1..j]);
    SizeOfConcat(s[..k], [s[k]] + s[k + 1..j]);
    SizeOfConcat([s[k]], s[k + 1..j]);
    assert Size([s[k]]) == |EncodeChar(s[k])|;
  }

  // ---- the log loop ------------------------------------------------------------------------------------

  /** A configured target: ill-formed, or with what kubectl printed and returned for it. */
  datatype Target = Malformed | Workload(output: string, code: int)

  datatype Entry = Invalid | Content(text: string, truncated: bool, collected: bool)

  datatype Report = Disabled | Refused | Logs(collected: bool, maxBytes: nat, bytes: nat, entries: seq<Entry>)

  function Limit(configured: int): (limit: nat)
    ensures 4096 <= limit <= 1048576 && (4096 <= configured <= 1048576 ==> limit == configured)
  {
    Min(Max(configured, 4096), 1048576)
  }

  lemma LimitExactly(configured: int)
    ensures configured < 4096 ==> Limit(configured) == 4096
    ensures configured > 1048576 ==> Limit(configured) == 1048576
  {
  }

  function EntrySize(e: Entry): nat { if e.Invalid? then 0 else Size(e.text) }

  function TotalSize(entries: seq<Entry>): nat {
    if entries == [] then 0 else TotalSize(entries[..|entries| - 1]) + EntrySize(entries[|entries| - 1])
  }

  /** What is kept of a target: its output cut to the remaining budget, redacted, and cut again, since redaction
      may lengthen a text. */
  ghost predicate EntryFor(e: Entry, t: Target, remaining: nat, redact: string -> string) {
    match t
    case Malformed => e == Invalid
    case Workload(output, code) =>
      exists source ::
        && LongestPrefix(source, output, remaining)
        && e.Content? && LongestPrefix(e.text, redact(source), remaining)
        && (e.truncated <==> source != output || e.text != redact(source))
        && (e.collected <==> code == 0)
  }

  /** The entries of the targets in order, each within what the ones before it left, up to the first that
      finds nothing left. */
  ghost predicate Accounted(entries: seq<Entry>, targets: seq<Target>, limit: nat, redact: string -> string) {
    entries == [] ||
    var init, last := entries[..|entries| - 1], entries[|entries| - 1];
    && |entries| <= |targets| && Accounted(init, targets, limit, redact)
    && TotalSize(init) < limit && EntryFor(last, targets[|init|], limit - TotalSize(init), redact)
  }

  lemma OneMoreEntry(entries: seq<Entry>, e: Entry, targets: seq<Target>, limit: nat, redact: string -> string)
    requires Accounted(entries, targets, limit, redact) && |entries| < |targets| && TotalSize(entries) < limit
    requires EntryFor(e, targets[|entries|], limit - TotalSize(entries), redact)
    ensures Accounted(entries + [e], targets, limit, redact)
    ensures TotalSize(entries + [e]) == TotalSize(entries) + EntrySize(e) <= limit
  {
    assert (entries + [e])[..|entries|] == entries;
    SizeWithinRemaining(e, targets[|entries|], limit - TotalSize(entries), redact);
  }

  lemma SizeWithinRemaining(e: Entry, t: Target, remaining: nat, redact: string -> string)
    requires EntryFor(e, t, remaining, redact)
    ensures EntrySize(e) <= remaining
  {
  }

  /** One target, with what the budget has left. */
  method Collect(target: Target, remaining: nat, redact: string -> string) returns (entry: Entry)
    ensures EntryFor(entry, target, remaining, redact)
  {
    if target.Malformed? { return Invalid; }
    var (source, sourceTruncated) := Utf8Prefix(target.output, remaining);
    var (text, redactionTruncated) := Utf8Prefix(redact(source), remaining);
    PrefixIsLongest(target.output, remaining);
    PrefixIsLongest(redact(source), remaining);
    return Content(text, sourceTruncated || redactionTruncated, target.code == 0);
  }

  /** The loop over the chosen targets, which stops when the limit is used up. */
  method CollectAll(chosen: seq<Target>, limit: nat, redact: string -> string) returns (output: seq<Entry>, used: nat)
    requires limit > 0
    ensures |output| <= |chosen| && used == TotalSize(output) <= limit && Accounted(output, chosen, limit, redact)
    ensures |output| < |chosen| ==> used == limit
  {
    output, used := [], 0;
    for i := 0 to |chosen|
      invariant |output| == i && used == TotalSize(output) < limit && Accounted(output, chosen, limit, redact)
    {
      var entry := Collect(chosen[i], Max(0, limit - used), redact);
      OneMoreEntry(output, entry, chosen, limit, redact);
      used := used + EntrySize(entry);
      output := output + [entry];
      if used >= limit { break; }
    }
  }

  method SanitizedLogs(enabled: bool, targets: seq<Target>, configured: int, redact: string -> string)
    returns (r: Report)
    ensures r.Disabled? <==> !enabled
    ensures r.Refused? <==> enabled && targets == []
    ensures r.Logs? ==>
      && r.maxBytes == Limit(configured) && r.bytes == TotalSize(r.entries) <= r.maxBytes
      && Accounted(r.entries, targets[..Min(20, |targets|)], r.maxBytes, redact)
      && (|r.entries| < Min(20, |targets|) ==> r.bytes == r.maxBytes)
      && (r.collected <==> exists e :: e in r.entries && e.Content? && e.collected)
  {
    var limit := Limit(configured);
    if !enabled { return Disabled; }
    if targets == [] { return Refused; }
    var output, used := CollectAll(targets[..Min(20, |targets|)], limit, redact);
    return Logs(exists e :: e in output && e.Content? && e.collected, limit, used, output);
  }
}
