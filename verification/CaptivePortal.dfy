/**
 The ESP32 captive portal: decoding an HTML form body into the WiFi name and password.  The body comes
 from a browser's application/x-www-form-urlencoded serializer (section 5 of the WHATWG URL Standard,
 with the percent-encoding of section 2.1 of RFC 3986).
 */
module CaptivePortal {
  import opened Wrappers

  type Byte = b: int | 0 <= b < 256

  const NUL: Byte := 0x00
  const SPACE: Byte := 0x20
  const PERCENT: Byte := 0x25
  const AMPERSAND: Byte := 0x26
  const PLUS: Byte := 0x2B
  const MINUS: Byte := 0x2D
  const DIGIT_TWO: Byte := 0x32
  const EQUALS: Byte := 0x3D
  const SSID_KEY: seq<Byte> := [0x73, 0x73, 0x69, 0x64, EQUALS]
  const PASS_KEY: seq<Byte> := [0x70, 0x61, 0x73, 0x73, EQUALS]
  const BODY_MAX := 255
  const RAW_MAX := 63

  // ----- C strings ------------------------------------------------------------------------------

  /** The part of `s` before the first `c`. */
  function UpTo(s: seq<Byte>, c: Byte): (r: seq<Byte>)
    ensures r <= s && c !in r
    ensures |r| == |s| || s[|r|] == c
  {
    if s == [] || s[0] == c then [] else [s[0]] + UpTo(s[1..], c)
  }

  lemma {:induction false} UpToIs(s: seq<Byte>, c: Byte, n: nat)
    requires n <= |s| && c !in s[..n] && (n == |s| || s[n] == c)
    ensures UpTo(s, c) == s[..n]
  {
    var r := UpTo(s, c);
    assert forall k | 0 <= k < n :: s[k] == s[..n][k];
    assert forall k | 0 <= k < |r| :: r[k] == s[k];
  }

  function CString(buffer: seq<Byte>): seq<Byte> { UpTo(buffer, NUL) }

  predicate OccursAt(s: seq<Byte>, t: seq<Byte>, i: nat) { i + |t| <= |s| && s[i..i + |t|] == t }

  /** strstr, from index `start` on */
  function Strstr(s: seq<Byte>, t: seq<Byte>, start: nat): (r: Option<nat>)
    ensures r.Some? ==> start <= r.value && OccursAt(s, t, r.value) &&
                        forall i: nat | start <= i < r.value :: !OccursAt(s, t, i)
    ensures r.None? ==> forall i: nat | start <= i :: !OccursAt(s, t, i)
    decreases |s| - start
  {
    if start + |t| > |s| then None
    else if OccursAt(s, t, start) then Some(start)
    else Strstr(s, t, start + 1)
  }

  // ----- url_decode -----------------------------------------------------------------------------

  predicate IsHex(c: Byte) { 0x30 <= c <= 0x39 || 0x41 <= c <= 0x46 || 0x61 <= c <= 0x66 }

  function HexValue(c: Byte): (v: nat)
    requires IsHex(c)
    ensures v < 16
  {
    if c <= 0x39 then c - 0x30 else if c <= 0x46 then c - 0x37 else c - 0x57
  }

  predicate IsSpace(c: Byte) { c == SPACE || 0x09 <= c <= 0x0D }

  /**
   (char)strtol(hex, NULL, 16) for a two-character string: white space and a sign are accepted before
   the digits, anything else ends the number, and no digits at all read as zero.
   */
  function Strtol(a: Byte, b: Byte): Byte
  {
    if IsHex(a) then (if IsHex(b) then 16 * HexValue(a) + HexValue(b) else HexValue(a))
    else if !IsHex(b) then 0
    else if IsSpace(a) || a == PLUS then HexValue(b)
    else if a == MINUS then (256 - HexValue(b)) % 256
    else 0
  }

  /** What url_decode makes of a string when its buffer is large enough. */
  function Decode(s: seq<Byte>): (d: seq<Byte>)
    ensures |d| <= |s|
  {
    if s == [] then []
    else if s[0] == PERCENT && |s| >= 3 then [Strtol(s[1], s[2])] + Decode(s[3..])
    else if s[0] == PLUS then [SPACE] + Decode(s[1..])
    else [s[0]] + Decode(s[1..])
  }

  lemma DecodeStep(s: seq<Byte>, p: nat)
    requires p < |s|
    ensures Decode(s[p..])
         == if s[p] == PERCENT && p + 2 < |s| then [Strtol(s[p + 1], s[p + 2])] + Decode(s[p + 3..])
            else [if s[p] == PLUS then SPACE else s[p]] + Decode(s[p + 1..])
  {
    assert s[p..][1..] == s[p + 1..];
    if p + 2 < |s| { assert s[p..][3..] == s[p + 3..]; }
  }

  /** The buffer holds the string `s` and a NUL behind it. */
  ghost predicate Holds(buffer: seq<Byte>, s: seq<Byte>)
  {
    |s| < |buffer| && buffer[..|s|] == s && buffer[|s|] == NUL && NUL !in s
  }

  lemma {:induction false} HoldsCString(buffer: seq<Byte>)
    requires NUL in buffer
    ensures Holds(buffer, CString(buffer))
  {
    var s := CString(buffer);
    assert |s| == |buffer| ==> s == buffer;
  }

  /** The loop of url_decode has turned the first p bytes of `s` into the first i bytes of the result. */
  ghost predicate Decoded(s: seq<Byte>, p: nat, done: seq<Byte>)
    requires p <= |s|
  {
    Decode(s) == done + Decode(s[p..])
  }

  lemma DecodedMore(s: seq<Byte>, p: nat, done: seq<Byte>, p': nat, c: Byte)
    requires p < |s| && Decoded(s, p, done)
    requires if s[p] == PERCENT && p + 2 < |s| then p' == p + 3 && c == Strtol(s[p + 1], s[p + 2])
             else p' == p + 1 && c == if s[p] == PLUS then SPACE else s[p]
    ensures Decoded(s, p', done + [c])
  {
    hide Decode;
    DecodeStep(s, p);
    assert done + ([c] + Decode(s[p'..])) == done + [c] + Decode(s[p'..]);
  }

  lemma DecodedAll(s: seq<Byte>, p: nat, done: seq<Byte>, room: nat)
    requires p <= |s| && Decoded(s, p, done) && |done| <= room && (p == |s| || |done| == room)
    ensures done == Decode(s)[..if |Decode(s)| < room then |Decode(s)| else room]
  {
    if p == |s| { assert s[p..] == []; }
  }

  /**
   url_decode.  `src` need not hold anything behind its terminating NUL, so the method reads no further;
   it writes the decoded bytes that fit, a NUL, and nothing else.
   */
  method UrlDecode(src: array<Byte>, dst: array<Byte>)
    requires NUL in src[..] && dst.Length >= 1 && src != dst
    modifies dst
    ensures var d := Decode(CString(src[..]));
            var n := if |d| < dst.Length - 1 then |d| else dst.Length - 1;
            dst[..] == d[..n] + [NUL] + old(dst[n + 1..])
  {
    hide Decode, Decoded, UpTo;
    ghost var s := CString(src[..]);
    HoldsCString(src[..]);
    assert forall k | 0 <= k < |s| :: src[k] == src[..|s|][k] == s[k] && s[k] != NUL;
    assert src[|s|] == NUL;
    var p, i := 0, 0;
    NothingDecoded(s);
    assert dst[..0] == [];
    while src[p] != NUL && i < dst.Length - 1
      invariant p <= |s| && i <= dst.Length - 1
      invariant Decoded(s, p, dst[..i])
      invariant dst[i..] == old(dst[i..])
      decreases |s| - p
    {
      ghost var done, tail, p0 := dst[..i], dst[i..], p;
      var c: Byte;
      if src[p] == PERCENT && src[p + 1] != NUL && src[p + 2] != NUL {
        c := Strtol(src[p + 1], src[p + 2]);
        p := p + 3;
      } else if src[p] == PLUS {
        c := SPACE;
        p := p + 1;
      } else {
        c := src[p];
        p := p + 1;
      }
      dst[i] := c;
      i := i + 1;
      DecodedMore(s, p0, done, p, c);
      assert dst[..i] == done + [c] && dst[i..] == tail[1..];
    }
    DecodedAll(s, p, dst[..i], dst.Length - 1);
    ghost var written := dst[..i];
    dst[i] := NUL;
    assert dst[..] == dst[..i] + [dst[i]] + dst[i + 1..];
    assert dst[..i] == written;
  }

  lemma NothingDecoded(s: seq<Byte>)
    ensures Decoded(s, 0, [])
  {
    assert s[0..] == s;
    assert [] + Decode(s) == Decode(s);
  }

  /** The bytes that stand for a hexadecimal digit, in either case. */
  predicate DigitOf(c: Byte, v: nat)
  {
    v < 16 && (c == "0123456789ABCDEF"[v] as int || c == "0123456789abcdef"[v] as int)
  }

  lemma HexIff(c: Byte)
    ensures IsHex(c) <==> exists v: nat :: DigitOf(c, v)
    ensures IsHex(c) ==> DigitOf(c, HexValue(c))
    ensures forall v: nat :: DigitOf(c, v) ==> IsHex(c) && v == HexValue(c)
  {
    if IsHex(c) { DigitIs(c); }
    forall v: nat | DigitOf(c, v) ensures IsHex(c) && v == HexValue(c) { ValueIs(c, v); }
  }

  lemma DigitIs(c: Byte)
    requires IsHex(c)
    ensures DigitOf(c, HexValue(c))
  {
  }

  lemma ValueIs(c: Byte, v: nat)
    requires DigitOf(c, v)
    ensures IsHex(c) && v == HexValue(c)
  {
  }

  /** An escape with two digits, of either case, is the byte they denote. */
  lemma EscapeIsRead(a: Byte, b: Byte, h: nat, l: nat, rest: seq<Byte>)
    requires DigitOf(a, h) && DigitOf(b, l)
    ensures Decode([0x25, a, b] + rest) == [16 * h + l] + Decode(rest)
  {
    HexIff(a);
    HexIff(b);
    hide DigitOf, HexValue, IsHex;
    assert ([0x25, a, b] + rest)[3..] == rest;
  }

  /**
   Of an escape with anything else only the digits count that strtol finds before that or, behind a blank or
   a sign, after it; without any it is a NUL.
   */
  lemma BrokenEscapeIsRead(a: Byte, b: Byte, rest: seq<Byte>)
    ensures forall h: nat | DigitOf(a, h) && !(exists l: nat :: DigitOf(b, l)) ::
              Decode([0x25, a, b] + rest) == [h] + Decode(rest)
    ensures forall l: nat | DigitOf(b, l) && a in {0x20, 0x09, 0x0A, 0x0B, 0x0C, 0x0D, 0x2B} ::
              Decode([0x25, a, b] + rest) == [l] + Decode(rest)
    ensures forall l: nat | DigitOf(b, l) && a == 0x2D ::
              Decode([0x25, a, b] + rest) == [if l == 0 then 0 else 256 - l] + Decode(rest)
    ensures !(exists h: nat :: DigitOf(a, h)) &&
            (!(exists l: nat :: DigitOf(b, l)) || a !in {0x20, 0x09, 0x0A, 0x0B, 0x0C, 0x0D, 0x2B, 0x2D}) ==>
              Decode([0x25, a, b] + rest) == [0] + Decode(rest)
  {
    HexIff(a);
    HexIff(b);
    hide DigitOf, HexValue;
    assert ([0x25, a, b] + rest)[3..] == rest;
  }

  // ----- the browser's serializer ---------------------------------------------------------------

  predicate IsUnreserved(b: Byte)
  {
    0x30 <= b <= 0x39 || 0x41 <= b <= 0x5A || 0x61 <= b <= 0x7A || b == 0x2A || b == 0x2D || b == 0x2E || b == 0x5F
  }

  function HexDigit(v: nat): (c: Byte)
    requires v < 16
    ensures IsHex(c) && HexValue(c) == v
  {
    if v < 10 then 0x30 + v else 0x37 + v
  }

  function EncodeByte(b: Byte): (e: seq<Byte>)
    ensures |e| == 1 || |e| == 3
    ensures forall c | c in e :: c != NUL && c != AMPERSAND && c != EQUALS
  {
    if IsUnreserved(b) then [b] else if b == 0x20 then [0x2B] else [0x25, HexDigit(b / 16), HexDigit(b % 16)]
  }

  function Encode(x: seq<Byte>): (e: seq<Byte>)
    ensures |e| >= |x|
    ensures NUL !in e && AMPERSAND !in e && EQUALS !in e
  {
    if x == [] then [] else EncodeByte(x[0]) + Encode(x[1..])
  }

  lemma DecodeEncodedByte(b: Byte, rest: seq<Byte>)
    ensures Decode(EncodeByte(b) + rest) == [b] + Decode(rest)
  {
    var e := EncodeByte(b);
    assert (e + rest)[|e|..] == rest;
  }

  /** Decoding undoes the serializer on every byte string. */
  lemma {:induction false} DecodeEncoded(x: seq<Byte>)
    ensures Decode(Encode(x)) == x
  {
    if x != [] {
      DecodeEncodedByte(x[0], Encode(x[1..]));
      DecodeEncoded(x[1..]);
    }
  }

  predicate EndsWith(x: seq<Byte>, t: seq<Byte>) { |t| <= |x| && x[|x| - |t|..] == t }

  /** An escape that the cut takes apart, yet whose remains read as the text that was to follow. */
  predicate SurvivesCut(x: seq<Byte>, n: nat)
  {
    |Encode(x)| == n + 2 && (EndsWith(x, [PERCENT]) || EndsWith(x, [PERCENT, DIGIT_TWO]))
  }

  /** An encoding that is cut short decodes to the original only in that case. */
  lemma {:induction false} DecodeCut(x: seq<Byte>, n: nat)
    requires n < |Encode(x)|
    ensures Decode(Encode(x)[..n]) == x <==> SurvivesCut(x, n)
  {
    var e, tail := EncodeByte(x[0]), x[1..];
    if |e| <= n {
      assert Encode(x)[..n] == e + Encode(tail)[..n - |e|];
      DecodeEncodedByte(x[0], Encode(tail)[..n - |e|]);
      DecodeCut(tail, n - |e|);
      assert x == [x[0]] + tail;
      CutOfTail(x, n);
    } else {
      assert Encode(x)[..n] == e[..n];
      CutInFirstByte(x, n);
    }
  }

  lemma CutOfTail(x: seq<Byte>, n: nat)
    requires |x| > 0 && |EncodeByte(x[0])| <= n < |Encode(x)|
    ensures SurvivesCut(x, n) <==> SurvivesCut(x[1..], n - |EncodeByte(x[0])|)
  {
    var tail := x[1..];
    assert |Encode(x)| == |EncodeByte(x[0])| + |Encode(tail)|;
    hide Encode, EncodeByte;
    assert tail != [] by {
      if tail == [] { EncodeNothing(); }
    }
    EndsWithTail(x);
    hide EndsWith;
    if EndsWith(x, [PERCENT, DIGIT_TWO]) && |tail| == 1 {
      assert x == [PERCENT, DIGIT_TWO];
      EncodePercentTwo();
    }
  }

  lemma EndsWithTail(x: seq<Byte>)
    requires |x| >= 2
    ensures EndsWith(x, [PERCENT]) <==> EndsWith(x[1..], [PERCENT])
    ensures |x| > 2 ==> (EndsWith(x, [PERCENT, DIGIT_TWO]) <==> EndsWith(x[1..], [PERCENT, DIGIT_TWO]))
    ensures |x| == 2 ==> !EndsWith(x[1..], [PERCENT, DIGIT_TWO])
    ensures |x| == 2 && EndsWith(x, [PERCENT, DIGIT_TWO]) ==> x == [PERCENT, DIGIT_TWO]
  {
    assert x[|x| - 1..] == x[1..][|x| - 2..];
    if |x| > 2 {
      assert x[|x| - 2..] == x[1..][|x| - 3..];
    }
  }

  lemma EncodeNothing()
    ensures Encode([]) == []
  {
  }

  lemma EncodePercentTwo()
    ensures |Encode([PERCENT, DIGIT_TWO])| == 4 && |EncodeByte(PERCENT)| == 3
  {
    var x, y := [PERCENT, DIGIT_TWO], [DIGIT_TWO];
    assert x[1..] == y && y[1..] == [];
    assert Encode(y) == EncodeByte(y[0]) + Encode([]);
    assert Encode(x) == EncodeByte(x[0]) + Encode(y);
  }

  lemma CutInFirstByte(x: seq<Byte>, n: nat)
    requires |x| > 0 && n < |EncodeByte(x[0])|
    ensures Decode(EncodeByte(x[0])[..n]) == x <==> SurvivesCut(x, n)
  {
    var e := EncodeByte(x[0]);
    assert |Encode(x)| == |e| + |Encode(x[1..])|;
    assert n > 0 ==> e[0] == PERCENT && |e| == 3;
    assert x[0] == PERCENT ==> |e| == 3 && e[1] == DIGIT_TWO;
    DecodeShort(e[..n]);
    EscapeAtEnd(x);
    hide Encode, EncodeByte, Decode;
    if |x| == 1 {
      assert x == [x[0]] && x[1..] == [];
      EncodeNothing();
    } else if |x| == 2 {
      assert x == [x[0], x[1]];
      EscapeAtEnd(x[1..]);
      if x == [PERCENT, DIGIT_TWO] { EncodePercentTwo(); }
    }
  }

  lemma DecodeShort(s: seq<Byte>)
    requires |s| <= 2 && (|s| > 0 ==> s[0] != PLUS) && (|s| > 1 ==> s[1] != PLUS)
    ensures Decode(s) == s
  {
    if s != [] {
      DecodeShort(s[1..]);
    }
  }

  lemma {:induction false} EscapeAtEnd(x: seq<Byte>)
    ensures EndsWith(x, [PERCENT]) || EndsWith(x, [PERCENT, DIGIT_TWO]) ==> |Encode(x)| >= |x| + 2
  {
    if |x| > 2 {
      assert x[|x| - 1..] == x[1..][|x| - 2..] && x[|x| - 2..] == x[1..][|x| - 3..];
      EscapeAtEnd(x[1..]);
    } else if |x| == 2 {
      assert x[|x| - 1..] == x[1..][|x| - 2..] && x[|x| - 2..] == x;
      EscapeAtEnd(x[1..]);
    }
  }

  // ----- the handler ----------------------------------------------------------------------------

  datatype Outcome =
    | ReceiveFailed
    | SsidRequired
    | Saved(ssid: seq<Byte>, pass: seq<Byte>)

  /** What fits the raw buffer. */
  function Kept(e: seq<Byte>): (k: seq<Byte>)
    ensures |k| <= RAW_MAX && k <= e
  {
    if |e| > RAW_MAX then e[..RAW_MAX] else e
  }

  /** The raw value of a form field: what follows its key up to the next '&', at most 63 bytes. */
  function FieldRaw(body: seq<Byte>, key: seq<Byte>): (raw: seq<Byte>)
    ensures |raw| <= RAW_MAX
  {
    match Strstr(body, key, 0)
    case None => []
    case Some(i) => Kept(UpTo(body[i + |key|..], AMPERSAND))
  }

  /** The decoded value of a form field as the C string it is stored as. */
  function Field(body: seq<Byte>, key: seq<Byte>): seq<Byte>
  {
    CString(Decode(FieldRaw(body, key)))
  }

  /** What the handler saves for a request body, of which it receives the first 255 bytes. */
  function Handle(request: seq<Byte>): Outcome
  {
    if request == [] then ReceiveFailed
    else
      var body := CString(request[..if |request| < BODY_MAX then |request| else BODY_MAX]);
      if Field(body, SSID_KEY) == [] then SsidRequired else Saved(Field(body, SSID_KEY), Field(body, PASS_KEY))
  }

  /** strstr, strchr or strlen, and memcpy into a zeroed buffer. */
  method ExtractField(body: array<Byte>, key: seq<Byte>) returns (raw: array<Byte>)
    requires NUL in body[..]
    ensures fresh(raw) && Holds(raw[..], FieldRaw(CString(body[..]), key)) && raw.Length == RAW_MAX + 1
  {
    hide UpTo, Kept;
    raw := new Byte[RAW_MAX + 1](_ => NUL);
    var text := CString(body[..]);
    HoldsCString(body[..]);
    var p := Strstr(text, key, 0);
    if p.Some? {
      var value := UpTo(text[p.value + |key|..], AMPERSAND);
      assert forall k | 0 <= k < |value| :: value[k] == text[p.value + |key|..][k];
      var len := if |value| > RAW_MAX then RAW_MAX else |value|;
      assert value[..len] == FieldRaw(text, key) by { KeptIs(value); }
      for k := 0 to len
        invariant raw[..k] == value[..k]
        invariant forall j | k <= j < raw.Length :: raw[j] == NUL
      {
        raw[k] := value[k];
      }
    }
  }

  lemma KeptIs(e: seq<Byte>)
    ensures Kept(e) == e[..if |e| > RAW_MAX then RAW_MAX else |e|]
  {
  }

  lemma CStringOfWritten(d: seq<Byte>, rest: seq<Byte>)
    ensures CString(d + [NUL] + rest) == CString(d)
  {
    var c := CString(d);
    var b := d + [NUL] + rest;
    assert b[..|c|] == d[..|c|] == c;
    UpToIs(b, NUL, |c|);
  }

  /** portal_post_handler up to saving the credentials. */
  method PortalPostHandler(request: seq<Byte>) returns (outcome: Outcome)
    ensures outcome == Handle(request)
    ensures outcome == ReceiveFailed <==> request == []
    ensures outcome == SsidRequired <==>
            request != [] &&
            Field(CString(request[..if |request| < 255 then |request| else 255]), [0x73, 0x73, 0x69, 0x64, 0x3D]) == []
  {
    hide UpTo, Decode, FieldRaw;
    var ret := if |request| < BODY_MAX then |request| else BODY_MAX;
    if ret == 0 { return ReceiveFailed; }
    var body := new Byte[BODY_MAX + 1](_ => NUL);
    for k := 0 to ret
      invariant body[..k] == request[..k]
      invariant forall j | k <= j < body.Length :: body[j] == NUL
    {
      body[k] := request[k];
    }
    ghost var text := CString(request[..ret]);
    assert body[..] == request[..ret] + [NUL] + body[ret + 1..];
    CStringOfWritten(request[..ret], body[ret + 1..]);
    var ssidRaw := ExtractField(body, SSID_KEY);
    var passRaw := ExtractField(body, PASS_KEY);
    var ssid := new Byte[RAW_MAX + 1](_ => NUL);
    var pass := new Byte[RAW_MAX + 1](_ => NUL);
    DecodeField(ssidRaw, ssid, FieldRaw(text, SSID_KEY));
    DecodeField(passRaw, pass, FieldRaw(text, PASS_KEY));
    if ssid[0] == NUL {
      FirstIsNul(ssid[..]);
      return SsidRequired;
    }
    FirstIsNul(ssid[..]);
    return Saved(CString(ssid[..]), CString(pass[..]));
  }

  lemma FirstIsNul(s: seq<Byte>)
    requires |s| > 0
    ensures CString(s) == [] <==> s[0] == NUL
  {
  }

  method DecodeField(raw: array<Byte>, dst: array<Byte>, ghost s: seq<Byte>)
    requires Holds(raw[..], s) && |s| <= RAW_MAX && dst.Length == RAW_MAX + 1 && raw != dst
    modifies dst
    ensures CString(dst[..]) == CString(Decode(s))
  {
    hide UpTo, Decode;
    UpToIs(raw[..], NUL, |s|);
    assert raw[|s|] == NUL;
    ghost var before := dst[..];
    UrlDecode(raw, dst);
    ghost var d := Decode(s);
    assert |d| <= |s|;
    assert d[..|d|] == d;
    CStringOfWritten(d, before[|d| + 1..]);
  }

  /** The body of the form as a browser sends it. */
  function FormBody(ssid: seq<Byte>, pass: seq<Byte>): seq<Byte>
  {
    [0x73, 0x73, 0x69, 0x64, 0x3D] + Encode(ssid) + [0x26, 0x70, 0x61, 0x73, 0x73, 0x3D] + Encode(pass)
  }

  /** The condition on a value under which the form carries it: a check on the value alone. */
  predicate Fits(x: seq<Byte>)
  {
    NUL !in x && (|Encode(x)| <= 63 || SurvivesCut(x, 63))
  }

  lemma {:induction false} CutValueRoundTrips(x: seq<Byte>)
    ensures CString(Decode(Kept(Encode(x)))) == x <==> Fits(x)
  {
    hide UpTo, Decode, Encode, EndsWith;
    var e := Encode(x);
    var n := if |e| > RAW_MAX then RAW_MAX else |e|;
    if n < |e| {
      DecodeCut(x, n);
    } else {
      assert e[..n] == e;
      DecodeEncoded(x);
    }
    if NUL !in x {
      CutStaysClean(x, n);
      UpToIs(Decode(e[..n]), NUL, |Decode(e[..n])|);
    }
  }

  lemma {:induction false} CutStaysClean(x: seq<Byte>, n: nat)
    requires NUL !in x && n <= |Encode(x)|
    ensures NUL !in Decode(Encode(x)[..n])
  {
    if x != [] {
      var e, tail := EncodeByte(x[0]), x[1..];
      if |e| <= n {
        assert Encode(x)[..n] == e + Encode(tail)[..n - |e|];
        DecodeEncodedByte(x[0], Encode(tail)[..n - |e|]);
        CutStaysClean(tail, n - |e|);
      } else {
        assert Encode(x)[..n] == e[..n];
        ShortStaysClean(e[..n]);
      }
    }
  }

  lemma {:induction false} ShortStaysClean(s: seq<Byte>)
    requires NUL !in s && |s| <= 2
    ensures NUL !in Decode(s)
  {
    if s != [] { ShortStaysClean(s[1..]); }
  }

  // ----- the round trip -------------------------------------------------------------------------

  lemma FormParts(ssid: seq<Byte>, pass: seq<Byte>)
    ensures var e1, e2, form := Encode(ssid), Encode(pass), FormBody(ssid, pass);
            |form| == 11 + |e1| + |e2| &&
            form[..5] == SSID_KEY && form[5..] == e1 + [AMPERSAND] + PASS_KEY + e2 &&
            form[5 + |e1|] == AMPERSAND && form[6 + |e1|..11 + |e1|] == PASS_KEY && form[11 + |e1|..] == e2
  {
    hide Encode;
  }

  /** The body as received: all of the form, or its first 255 bytes. */
  ghost predicate Received(body: seq<Byte>, form: seq<Byte>)
  {
    body <= form && (body == form || |body| == BODY_MAX)
  }

  lemma {:induction false} SsidOfForm(ssid: seq<Byte>, pass: seq<Byte>, body: seq<Byte>)
    requires Received(body, FormBody(ssid, pass))
    ensures FieldRaw(body, SSID_KEY) == Kept(Encode(ssid))
  {
    var form := FormBody(ssid, pass);
    FormParts(ssid, pass);
    hide Encode, UpTo, FormBody;
    assert body[0..5] == form[..5];
    assert OccursAt(body, SSID_KEY, 0);
    var e := Encode(ssid);
    assert e <= form[5..] && form[5..][|e|] == AMPERSAND;
    FieldValue(form[5..], body[5..], e);
  }

  lemma {:induction false} PassOfForm(ssid: seq<Byte>, pass: seq<Byte>, body: seq<Byte>)
    requires Received(body, FormBody(ssid, pass)) && |Encode(ssid)| <= RAW_MAX + 2
    ensures FieldRaw(body, PASS_KEY) == Kept(Encode(pass))
  {
    var form := FormBody(ssid, pass);
    FormParts(ssid, pass);
    NoEarlierPass(ssid, pass, body);
    hide Encode, UpTo, FormBody;
    var i := 6 + |Encode(ssid)|;
    assert body[i..i + 5] == form[i..i + 5];
    assert OccursAt(body, PASS_KEY, i);
    FieldValue(form[i + 5..], body[i + 5..], Encode(pass));
  }

  /** A field's value survives the cut of the body at 255 bytes as far as the handler looks at it. */
  lemma FieldValue(whole: seq<Byte>, rest: seq<Byte>, e: seq<Byte>)
    requires AMPERSAND !in e && e <= whole && (|e| == |whole| || whole[|e|] == AMPERSAND)
    requires rest <= whole && (|rest| >= RAW_MAX || rest == whole)
    ensures Kept(UpTo(rest, AMPERSAND)) == Kept(e)
  {
    var n := if |rest| < |e| then |rest| else |e|;
    assert rest[..n] == e[..n];
    UpToIs(rest, AMPERSAND, n);
  }

  /** "pass=" does not occur before the second key, since no encoded byte is '='. */
  lemma NoEarlierPass(ssid: seq<Byte>, pass: seq<Byte>, body: seq<Byte>)
    requires body <= FormBody(ssid, pass)
    ensures forall i: nat | i < 6 + |Encode(ssid)| :: !OccursAt(body, PASS_KEY, i)
  {
    FormParts(ssid, pass);
    hide Encode, FormBody;
    var e := Encode(ssid);
    var form := FormBody(ssid, pass);
    forall i: nat | i < 6 + |e|
      ensures !OccursAt(body, PASS_KEY, i)
    {
      if i + 5 <= |body| {
        var here := body[i..i + 5];
        assert here[0] == form[i] && here[4] == form[i + 4];
        if 5 <= i + 4 < 5 + |e| {
          assert form[i + 4] == form[5..][i - 1] == e[i - 1];
        } else if i + 4 > 5 + |e| {
          assert form[i + 4] == form[6 + |e|..11 + |e|][i - 2 - |e|];
        } else if i == 0 {
          assert form[0] == form[..5][0];
        }
      }
    }
  }

  /**
   The form round trip.  The handler saves exactly what the user typed if and only if the name is not
   empty and both values, NUL-free, are carried by the 63 bytes the handler keeps of each.
   */
  lemma {:induction false} FormRoundTrip(ssid: seq<Byte>, pass: seq<Byte>)
    ensures Handle(FormBody(ssid, pass)) == Saved(ssid, pass) <==> ssid != [] && Fits(ssid) && Fits(pass)
  {
    hide Encode, Decode, UpTo, Fits, FieldRaw, Kept, FormBody;
    var form := FormBody(ssid, pass);
    var n := if |form| < BODY_MAX then |form| else BODY_MAX;
    var body := form[..n];
    FormIsClean(ssid, pass);
    assert NUL !in body;
    UpToIs(body, NUL, n);
    assert body[..n] == body;
    FormParts(ssid, pass);
    assert CString(body) == body && form != [];
    SsidOfForm(ssid, pass, body);
    CutValueRoundTrips(ssid);
    if Fits(ssid) {
      FitsIsShort(ssid);
      PassOfForm(ssid, pass, body);
      CutValueRoundTrips(pass);
    }
  }

  /** A form is refused for want of a name exactly when its name is empty or begins with a NUL. */
  lemma {:induction false} FormRefusedIff(ssid: seq<Byte>, pass: seq<Byte>)
    ensures Handle(FormBody(ssid, pass)) == SsidRequired <==> ssid == [] || ssid[0] == 0
    ensures Handle(FormBody(ssid, pass)) != ReceiveFailed
  {
    FirstSurvives(ssid);
    hide Encode, Decode, UpTo, FieldRaw, Kept, FormBody;
    var form := FormBody(ssid, pass);
    var n := if |form| < BODY_MAX then |form| else BODY_MAX;
    var body := form[..n];
    FormIsClean(ssid, pass);
    UpToIs(body, NUL, n);
    assert body[..n] == body;
    FormParts(ssid, pass);
    SsidOfForm(ssid, pass, body);
  }

  lemma FirstSurvives(x: seq<Byte>)
    ensures CString(Decode(Kept(Encode(x)))) == [] <==> x == [] || x[0] == 0
  {
    if x != [] {
      KeptOf(EncodeByte(x[0]), Encode(x[1..]));
      assert Encode(x) == EncodeByte(x[0]) + Encode(x[1..]);
      var tail := Kept(Encode(x))[|EncodeByte(x[0])|..];
      DecodeEncodedByte(x[0], tail);
      hide Decode, Encode, EncodeByte, Kept;
      FirstIsNul([x[0]] + Decode(tail));
    }
  }

  lemma KeptOf(e: seq<Byte>, rest: seq<Byte>)
    requires |e| <= 3
    ensures |Kept(e + rest)| >= |e| && Kept(e + rest) == e + Kept(e + rest)[|e|..]
  {
  }

  /** So is every request that nowhere names the field; only the empty one is not answered at all. */
  lemma {:induction false} NamelessIsRefused(request: seq<Byte>)
    requires request != [] && forall i: nat :: !OccursAt(request, [0x73, 0x73, 0x69, 0x64, 0x3D], i)
    ensures Handle(request) == SsidRequired
  {
    var n := if |request| < BODY_MAX then |request| else BODY_MAX;
    var body := CString(request[..n]);
    hide UpTo, OccursAt;
    forall i: nat
      ensures !OccursAt(body, SSID_KEY, i)
    {
      if OccursAt(body, SSID_KEY, i) { OccursInWhole(body, request, SSID_KEY, i); }
    }
    assert FieldRaw(body, SSID_KEY) == [];
    assert CString([]) == [] by { NothingBefore(); }
  }

  lemma NothingBefore()
    ensures CString([]) == [] && Decode([]) == []
  {
  }

  lemma OccursInWhole(part: seq<Byte>, whole: seq<Byte>, t: seq<Byte>, i: nat)
    requires part <= whole && OccursAt(part, t, i)
    ensures OccursAt(whole, t, i)
  {
    assert part[i..i + |t|] == whole[i..i + |t|];
  }

  lemma FormIsClean(ssid: seq<Byte>, pass: seq<Byte>)
    ensures NUL !in FormBody(ssid, pass)
  {
    hide Encode;
    assert NUL !in SSID_KEY + Encode(ssid) + [AMPERSAND] + PASS_KEY;
  }

  lemma FitsIsShort(x: seq<Byte>)
    requires Fits(x)
    ensures |Encode(x)| <= RAW_MAX + 2
  {
  }
}
