/** helpers/token.js: random bearer tokens that carry their own creation time.

    A token is `hex(|prefix|) ++ prefix ++ hex(|stamp|) ++ stamp ++ suffix`, where the
    prefix is 5 to 14 random characters, the stamp is the creation time in milliseconds
    written in hexadecimal (in upper case half of the time), and the suffix is the
    server's process id in hexadecimal padded with random characters to 15 to 24
    characters. `CreationTime` reads the stamp back with the same arithmetic as the code,
    `parseInt(…, 16)` included. The clock, the process id and `Math.random` are
    parameters. */
module TokenHelper {
  import opened Wrappers
  import opened Text

  /** The alphabet random characters are drawn from (62 characters; `n` comes before `m`). */
  const Eligible := "abcdefghijklnmopqrstuvwxyzABCDEFGHIJKLMNOPQRSTUVWXYZ0123456789"

  /** Access tokens live four hours, refresh tokens two weeks (in seconds). */
  const AccessLifeSpan := 3600 * 4
  const RefreshLifeSpan := 3600 * 24 * 14

  /** 16^15: stamps below this have at most 15 hexadecimal digits, so their length fits one digit. */
  const MaxEncodableTime := Power16(15)

  function Max(a: int, b: int): int { if a < b then b else a }
  function Min(a: int, b: int): int { if a < b then a else b }

  // ---------------------------------------------------------------------------
  // Number.prototype.toString(16) and parseInt(·, 16)

  predicate IsHexDigit(c: char)
  {
    '0' <= c <= '9' || 'a' <= c <= 'f' || 'A' <= c <= 'F'
  }

  /** Lower-case hexadecimal digits: what `toString(16)` writes. */
  predicate IsLowerHexDigit(c: char)
  {
    '0' <= c <= '9' || 'a' <= c <= 'f'
  }

  function HexDigit(d: nat): (c: char)
    requires d < 16
    ensures IsLowerHexDigit(c)
  {
    if d < 10 then ('0' as int + d) as char else ('a' as int + d - 10) as char
  }

  /** `n.toString(16)` for a non-negative integer. */
  function Hex(n: nat): (s: string)
    ensures |s| >= 1
    ensures forall i :: 0 <= i < |s| ==> IsLowerHexDigit(s[i])
    decreases n
  {
    if n < 16 then [HexDigit(n)] else Hex(n / 16) + [HexDigit(n % 16)]
  }

  function HexDigitValue(c: char): (d: nat)
    requires IsHexDigit(c)
    ensures d < 16
  {
    if '0' <= c <= '9' then c as int - '0' as int
    else if 'a' <= c <= 'f' then c as int - 'a' as int + 10
    else c as int - 'A' as int + 10
  }

  /** The number a string of hexadecimal digits denotes, most significant digit first. */
  function HexValue(s: string): nat
    requires forall i :: 0 <= i < |s| ==> IsHexDigit(s[i])
    decreases |s|
  {
    if |s| == 0 then 0 else HexValue(s[..|s| - 1]) * 16 + HexDigitValue(s[|s| - 1])
  }

  /** The leading white space `parseInt` skips, removed. */
  function TrimStart(s: string): (r: string)
    ensures |r| <= |s| && r == s[|s| - |r|..]
    ensures |r| == 0 || !IsWhitespace(r[0])
    ensures forall i :: 0 <= i < |s| - |r| ==> IsWhitespace(s[i])
    decreases |s|
  {
    if |s| > 0 && IsWhitespace(s[0]) then TrimStart(s[1..]) else s
  }

  /** The number of leading hexadecimal digits. */
  function HexRunLength(s: string): (k: nat)
    ensures k <= |s|
    ensures forall i :: 0 <= i < k ==> IsHexDigit(s[i])
    ensures k < |s| ==> !IsHexDigit(s[k])
    decreases |s|
  {
    if |s| > 0 && IsHexDigit(s[0]) then 1 + HexRunLength(s[1..]) else 0
  }

  /** `parseInt(s, 16)`, with `None` for NaN: leading white space is skipped, then one sign,
      then a `0x`/`0X` prefix; the longest run of hexadecimal digits that follows is the
      magnitude, and without one the result is NaN. */
  function ParseInt16(s: string): Option<int>
  {
    ParseSigned(TrimStart(s))
  }

  /** The sign, then the magnitude. */
  function ParseSigned(t: string): Option<int>
  {
    if |t| > 0 && t[0] == '-' then
      var m := ParseMagnitude(t[1..]);
      if m.None? then None else Some(-m.value)
    else if |t| > 0 && t[0] == '+' then ParseMagnitude(t[1..])
    else ParseMagnitude(t)
  }

  /** The optional `0x`/`0X` prefix, then the longest run of hexadecimal digits. */
  function ParseMagnitude(u: string): (r: Option<int>)
    ensures r.Some? ==> r.value >= 0
  {
    var v := if |u| >= 2 && u[0] == '0' && (u[1] == 'x' || u[1] == 'X') then u[2..] else u;
    var k := HexRunLength(v);
    if k == 0 then None else Some(HexValue(v[..k]))
  }

  /** `s.substr(start, length)`. */
  function Substr(s: string, start: int, length: int): (r: string)
    ensures 0 <= start && 0 <= length && start + length <= |s| ==> r == s[start..start + length]
    ensures |r| <= |s|
  {
    var from := if start < 0 then Max(|s| + start, 0) else Min(start, |s|);
    var count := Min(Max(length, 0), |s| - from);
    s[from..from + count]
  }

  // --- toString(16) and parseInt agree

  lemma {:induction false} HexValueOfHex(n: nat)
    ensures HexValue(Hex(n)) == n
    decreases n
  {
    if n >= 16 {
      HexValueOfHex(n / 16);
      var s := Hex(n);
      assert s[..|s| - 1] == Hex(n / 16);
    }
  }

  /** The digits of `n` in hexadecimal: at most `k` of them when `n < 16^k`. */
  lemma {:induction false} HexLength(n: nat, k: nat, bound: nat)
    requires k >= 1 && bound == Power16(k) && n < bound
    ensures |Hex(n)| <= k
    decreases k
  {
    if n >= 16 {
      assert k >= 2;
      Power16Step(k - 1);
      HexLength(n / 16, k - 1, Power16(k - 1));
    }
  }

  function Power16(k: nat): nat
  {
    if k == 0 then 1 else 16 * Power16(k - 1)
  }

  lemma Power16Step(k: nat)
    ensures Power16(k + 1) == 16 * Power16(k)
  {
  }

  /** A non-empty run of lower-case hexadecimal digits parses to its value: there is no
      white space, sign or `0x` prefix to skip. */
  lemma ParseHexDigits(s: string)
    requires |s| >= 1 && forall i :: 0 <= i < |s| ==> IsLowerHexDigit(s[i])
    ensures forall i :: 0 <= i < |s| ==> IsHexDigit(s[i])
    ensures ParseInt16(s) == Some(HexValue(s))
  {
    assert forall i :: 0 <= i < |s| ==> IsHexDigit(s[i]);
    assert !IsWhitespace(s[0]);
    assert TrimStart(s) == s;
    assert s[0] != '-' && s[0] != '+';
    assert !(|s| >= 2 && (s[1] == 'x' || s[1] == 'X'));
    assert HexRunLength(s) == |s|;
    assert s[..|s|] == s;
  }

  /** `parseInt(n.toString(16), 16) == n`. */
  lemma ParseHex(n: nat)
    ensures ParseInt16(Hex(n)) == Some(n)
  {
    ParseHexDigits(Hex(n));
    HexValueOfHex(n);
  }

  /** A digit written by `toString(16)` parses back to its value. */
  lemma ParseOneDigit(d: nat)
    requires d < 16
    ensures HexDigitValue(HexDigit(d)) == d
  {
  }

  // ---------------------------------------------------------------------------
  // getTokenCreationTime

  /** `parseInt(c, 16)` for a one-character string: the digit's value, or NaN. */
  function ParseChar16(c: char): Option<int>
  {
    if IsHexDigit(c) then Some(HexDigitValue(c)) else None
  }

  /** `ParseChar16` is `parseInt` on one-character strings. */
  lemma ParseOneChar(c: char)
    ensures ParseChar16(c) == ParseInt16([c])
  {
    var s := [c];
    assert s[1..] == [];
    assert ParseMagnitude([]) == None by { assert HexRunLength([]) == 0; }
    if IsWhitespace(c) {
      assert !IsHexDigit(c);
      assert TrimStart(s) == TrimStart([]) == [];
    } else {
      assert TrimStart(s) == s;
      if c != '-' && c != '+' {
        if IsHexDigit(c) {
          assert HexRunLength(s) == 1 by { assert HexRunLength(s[1..]) == 0; }
          assert s[..1] == s && s[..0] == [];
          assert HexValue(s) == HexDigitValue(c);
        } else {
          assert HexRunLength(s) == 0;
        }
      }
    }
  }

  /** `getTokenCreationTime(token)`: the first character gives the prefix length `p`, the
      character at `p + 1` the stamp length `d`, and the `d` characters from `p + 2`,
      lower-cased, are parsed as hexadecimal. A missing character reads as `undefined`,
      which parses to NaN; NaN propagates, since `substr(·, NaN)` is empty. */
  function CreationTime(token: string): Option<int>
  {
    if |token| == 0 || ParseChar16(token[0]).None? then None
    else
      var p := ParseChar16(token[0]).value;
      if p + 1 < 0 || p + 1 >= |token| || ParseChar16(token[p + 1]).None? then None
      else StampValue(token, p + 2, ParseChar16(token[p + 1]).value)
  }

  /** `parseInt(token.substr(start, length).toLowerCase(), 16)`. */
  function StampValue(token: string, start: int, length: int): Option<int>
  {
    ParseInt16(ToLower(Substr(token, start, length)))
  }

  /** With both lengths readable, the creation time is the parse of the stamp they delimit. */
  lemma ReadStamp(token: string, p: int, d: int)
    requires |token| > 0 && ParseChar16(token[0]) == Some(p)
    requires 0 <= p + 1 < |token| && ParseChar16(token[p + 1]) == Some(d)
    ensures CreationTime(token) == StampValue(token, p + 2, d)
  {
  }

  // ---------------------------------------------------------------------------
  // generateToken

  /** The stamp: the time in hexadecimal, upper-cased when the coin said so. */
  function Stamp(now: nat, upper: bool): (stamp: string)
    ensures |stamp| == |Hex(now)|
    ensures ToLower(stamp) == Hex(now)
  {
    var h := Hex(now);
    var r := if upper then ToUpper(h) else h;
    assert forall i :: 0 <= i < |h| ==> ToLowerChar(r[i]) == h[i];
    r
  }

  /** The five parts of a token, joined. */
  function Layout(prefix: string, stamp: string, suffix: string): string
  {
    Hex(|prefix|) + prefix + Hex(|stamp|) + stamp + suffix
  }

  /** `s` starts with `start` and continues with characters from the alphabet. */
  predicate Extends(s: string, start: string)
  {
    |start| <= |s| && s[..|start|] == start && forall j :: |start| <= j < |s| ==> s[j] in Eligible
  }

  /** The first segment: 5 to 14 characters from the alphabet. */
  predicate PrefixSegment(s: string)
  {
    5 <= |s| <= 14 && Extends(s, "")
  }

  /** The second segment: the process id in hexadecimal, padded with characters from the
      alphabet up to a drawn length of 15 to 24; a longer process id is kept whole. */
  predicate SuffixSegment(s: string, pidHex: string)
  {
    Extends(s, pidHex) &&
    ((|s| == |pidHex| && |pidHex| >= 15) || (|pidHex| < |s| && 15 <= |s| <= 24))
  }

  /** Reading the creation time back from any token of this layout gives the time written. */
  lemma CreationTimeOfLayout(prefix: string, now: nat, upper: bool, suffix: string)
    requires |prefix| < 16
    requires now < MaxEncodableTime
    ensures CreationTime(Layout(prefix, Stamp(now, upper), suffix)) == Some(now)
  {
    var stamp := Stamp(now, upper);
    var token := Layout(prefix, stamp, suffix);
    var p := |prefix|;
    HexLength(now, 15, MaxEncodableTime);
    var d := |stamp|;
    assert Hex(p) == [HexDigit(p)];
    assert Hex(d) == [HexDigit(d)];
    assert token[0] == HexDigit(p);
    ParseOneDigit(p);
    assert token[p + 1] == HexDigit(d);
    ParseOneDigit(d);
    assert Substr(token, p + 2, d) == stamp;
    ReadStamp(token, p, d);
    ParseHex(now);
    assert StampValue(token, p + 2, d) == ParseInt16(Hex(now));
  }

  /** `generateToken()`. `random(k)` is the value of the `k`-th call to `Math.random()`:
      the first decides the stamp's case, then each segment draws its length and then its
      characters, one call each. */
  method GenerateToken(now: nat, pid: nat, random: nat -> real) returns (token: string)
    requires forall k :: 0.0 <= random(k) < 1.0
    ensures exists prefix, suffix :: PrefixSegment(prefix) && SuffixSegment(suffix, Hex(pid)) &&
              token == Layout(prefix, Stamp(now, random(0) > 0.5), suffix)
    ensures now < MaxEncodableTime ==> CreationTime(token) == Some(now)
  {
    var maxIndex := |Eligible|;
    var draw := 0;
    var nowHex := Hex(now);
    if random(draw) > 0.5 {
      nowHex := ToUpper(nowHex);
    }
    draw := 1;
    assert nowHex == Stamp(now, random(0) > 0.5);
    var pidHex := Hex(pid);
    var components := ["", pidHex];
    for i := 0 to 2
      invariant |components| == 2
      invariant i == 0 ==> components[0] == ""
      invariant i >= 1 ==> PrefixSegment(components[0])
      invariant i <= 1 ==> components[1] == pidHex
      invariant i == 2 ==> SuffixSegment(components[1], pidHex)
    {
      var max := 15 + 10 * i;
      var min := 5 + 10 * i;
      var segmentLength := (random(draw) * (max - min) as real).Floor + min;
      draw := draw + 1;
      ghost var start, other := components[i], components[1 - i];
      assert min <= segmentLength < max;
      while |components[i]| < segmentLength
        invariant |components| == 2
        invariant components[1 - i] == other
        invariant Extends(components[i], start)
        invariant |components[i]| <= Max(|start|, segmentLength)
        decreases segmentLength - |components[i]|
      {
        var k := (random(draw) * maxIndex as real).Floor;
        draw := draw + 1;
        components := components[i := components[i] + [Eligible[k]]];
      }
      assert |components[i]| == Max(|start|, segmentLength);
    }
    token := Hex(|components[0]|) + components[0] + Hex(|nowHex|) + nowHex + components[1];
    assert token == Layout(components[0], nowHex, components[1]);
    if now < MaxEncodableTime {
      CreationTimeOfLayout(components[0], now, random(0) > 0.5, components[1]);
    }
  }

  // ---------------------------------------------------------------------------
  // getTokenPair

  datatype TokenData = TokenData(creation: Option<int>, expiration: Option<int>, token: string)
  datatype TokenPair = TokenPair(access: TokenData, refresh: TokenData)

  /** `creation + lifeSpan * 1000`, where NaN stays NaN. */
  function Expiration(creation: Option<int>, lifeSpan: int): (r: Option<int>)
    ensures r.Some? <==> creation.Some?
    ensures creation.Some? ==> r.value - creation.value == lifeSpan * 1000
  {
    match creation
    case None => None
    case Some(t) => Some(t + lifeSpan * 1000)
  }

  /** `getTokenPair()`: two fresh tokens, each with the creation time read back from it and
      an expiry its life span later. */
  method GetTokenPair(accessNow: nat, refreshNow: nat, pid: nat,
                      accessRandom: nat -> real, refreshRandom: nat -> real)
    returns (pair: TokenPair)
    requires forall k :: 0.0 <= accessRandom(k) < 1.0
    requires forall k :: 0.0 <= refreshRandom(k) < 1.0
    ensures pair.access.creation == CreationTime(pair.access.token)
    ensures pair.access.expiration == Expiration(pair.access.creation, AccessLifeSpan)
    ensures pair.refresh.creation == CreationTime(pair.refresh.token)
    ensures pair.refresh.expiration == Expiration(pair.refresh.creation, RefreshLifeSpan)
    ensures accessNow < MaxEncodableTime ==> pair.access.creation == Some(accessNow)
    ensures refreshNow < MaxEncodableTime ==> pair.refresh.creation == Some(refreshNow)
  {
    var accessToken := GenerateToken(accessNow, pid, accessRandom);
    var atTime := CreationTime(accessToken);
    var refreshToken := GenerateToken(refreshNow, pid, refreshRandom);
    var rtTime := CreationTime(refreshToken);
    pair := TokenPair(TokenData(atTime, Expiration(atTime, AccessLifeSpan), accessToken),
                      TokenData(rtTime, Expiration(rtTime, RefreshLifeSpan), refreshToken));
  }
}
