/** DHCP reservations on a FortiGate server: the dotted-quad codec, the search for the first
    free address of a range, and the three edits of the reserved-address list.  The HTTP
    exchange is abstracted: the fetched server configuration is an input, the list written
    back by the PUT is part of the result, and the PUT's success is a boolean input. */
module Fortigate {
  import opened Wrappers
  import opened Strings
  import Seqs

  // ================================================================ binary digits

  /** Digits of Python's `bin(n)` after the `0b` prefix (most significant first). */
  function BinDigits(n: nat): (r: string)
    ensures |r| > 0
    decreases n
  {
    if n < 2 then [if n == 1 then '1' else '0']
    else BinDigits(n / 2) + [if n % 2 == 1 then '1' else '0']
  }

  /** Python's `bin(n)`. */
  function Bin(n: int): string {
    if n < 0 then "-0b" + BinDigits(-n) else "0b" + BinDigits(n)
  }

  /** Python's `s[3:]`. */
  function Drop3(s: string): string {
    if |s| >= 3 then s[3..] else ""
  }

  /** The piece `ip_to_int` emits for the octet value `x` (`fortigate.py:101`): the binary digits
      of `x + 256` without the `0b1` in front. */
  function OctetBits(x: int): string {
    Drop3(Bin(x + 256))
  }

  predicate IsBit(c: char) { c == '0' || c == '1' }

  predicate AllBits(s: string) { forall i :: 0 <= i < |s| ==> IsBit(s[i]) }

  /** The value of a string of binary digits, most significant first. */
  function BitsValue(s: string): nat
    requires AllBits(s)
  {
    if s == [] then 0 else BitsValue(s[..|s| - 1]) * 2 + (if s[|s| - 1] == '1' then 1 else 0)
  }

  /** Python's `int(s, 2)` on digit strings; `None` where it raises `ValueError`. */
  function ParseBinary(s: string): Option<int> {
    if |s| > 0 && AllBits(s) then Some(BitsValue(s)) else None
  }

  function Pow2(k: nat): (r: nat)
    ensures r > 0
  {
    if k == 0 then 1 else 2 * Pow2(k - 1)
  }

  /** The `w` low bits of `v`, most significant first (zero-padded). */
  function FixedBits(v: nat, w: nat): (r: string)
    ensures |r| == w && AllBits(r)
  {
    if w == 0 then "" else FixedBits(v / 2, w - 1) + [if v % 2 == 1 then '1' else '0']
  }

  // ================================================================ the codec

  /** The pieces of all the parts, concatenated in order (`fortigate.py:101`), or `None` when some
      part is not a decimal integer. */
  function OctetsBits(parts: seq<string>): Option<string>
  {
    if parts == [] then Some("")
    else match ParseInt(parts[0])
      case None => None
      case Some(v) =>
        match OctetsBits(parts[1..])
        case None => None
        case Some(rest) => Some(OctetBits(v) + rest)
  }

  /** `ip_to_int(ip)`: `None` where the source raises `ValueError`. */
  function IpToInt(ip: string): Option<int> {
    match OctetsBits(Split(ip, "."))
    case None => None
    case Some(bits) => ParseBinary(bits)
  }

  /** `(x >> shift) & 0xFF` in Python's arbitrary-precision arithmetic, where `unit == 2^shift`:
      the shift floors, and so does Dafny's division by a positive number. */
  function ByteAt(x: int, unit: nat): int
    requires unit > 0
  {
    (x / unit) % 256
  }

  /** `int_to_ip(x)`. */
  function IntToIp(x: int): string {
    Join([IntToDecimal(ByteAt(x, 0x100_0000)), IntToDecimal(ByteAt(x, 0x1_0000)),
          IntToDecimal(ByteAt(x, 0x100)), IntToDecimal(ByteAt(x, 1))], ".")
  }

  /** The canonical dotted quad of four octet values. */
  function Quad(a: int, b: int, c: int, d: int): string {
    Join([IntToDecimal(a), IntToDecimal(b), IntToDecimal(c), IntToDecimal(d)], ".")
  }

  /** The 32-bit number of four octet values. */
  function QuadValue(a: int, b: int, c: int, d: int): int {
    ((a * 256 + b) * 256 + c) * 256 + d
  }

  predicate IsOctet(x: int) { 0 <= x < 256 }

  // ---------------------------------------------------------------- codec lemmas

  lemma Pow2Of8()
    ensures Pow2(8) == 256
  {
    assert Pow2(1) == 2 && Pow2(2) == 4 && Pow2(3) == 8 && Pow2(4) == 16;
    assert Pow2(5) == 32 && Pow2(6) == 64 && Pow2(7) == 128;
  }

  /** For `2^w <= n < 2^(w+1)`, Python's binary digits of `n` are a `1` followed by the `w` low bits. */
  lemma {:induction false} BinDigitsTop(n: nat, w: nat)
    requires Pow2(w) <= n < 2 * Pow2(w)
    ensures BinDigits(n) == "1" + FixedBits(n - Pow2(w), w)
  {
    if w > 0 {
      BinDigitsTop(n / 2, w - 1);
      assert (n - Pow2(w)) / 2 == n / 2 - Pow2(w - 1);
      assert (n - Pow2(w)) % 2 == n % 2;
    }
  }

  /** Doubling distributes over a product; kept apart so that the one nonlinear step of
      `BitsValueAppend` is all its proof has to see. */
  lemma Twice(x: int, p: int)
    ensures (x * p) * 2 == x * (2 * p)
  {
  }

  lemma {:induction false} BitsValueAppend(s: string, t: string)
    requires AllBits(s) && AllBits(t)
    ensures AllBits(s + t)
    ensures BitsValue(s + t) == BitsValue(s) * Pow2(|t|) + BitsValue(t)
    decreases |t|
  {
    if t == [] {
      assert s + t == s;
    } else {
      var u := t[..|t| - 1];
      var bit := if t[|t| - 1] == '1' then 1 else 0;
      BitsValueAppend(s, u);
      assert (s + t)[..|s + t| - 1] == s + u;
      assert BitsValue(s + t) == BitsValue(s + u) * 2 + bit;
      assert BitsValue(t) == BitsValue(u) * 2 + bit;
      var x, p, v := BitsValue(s), Pow2(|u|), BitsValue(u);
      assert Pow2(|t|) == 2 * p;
      Twice(x, p);
    }
  }

  /** Appending eight bits multiplies by 256 and adds their value. */
  lemma AppendOctet(s: string, t: string)
    requires AllBits(s) && AllBits(t) && |t| == 8
    ensures AllBits(s + t)
    ensures BitsValue(s + t) == BitsValue(s) * 256 + BitsValue(t)
  {
    BitsValueAppend(s, t);
    Pow2Of8();
  }

  lemma {:induction false} FixedBitsValue(v: nat, w: nat)
    requires v < Pow2(w)
    ensures BitsValue(FixedBits(v, w)) == v
  {
    if w > 0 {
      FixedBitsValue(v / 2, w - 1);
      var r := FixedBits(v, w);
      assert r[..|r| - 1] == FixedBits(v / 2, w - 1);
    }
  }

  /** For an octet value, `bin(x + 256)[3:]` is exactly its eight bits. */
  lemma OctetBitsOfOctet(x: int)
    requires IsOctet(x)
    ensures |OctetBits(x)| == 8 && AllBits(OctetBits(x))
    ensures BitsValue(OctetBits(x)) == x
  {
    Pow2Of8();
    BinDigitsTop(x + 256, 8);
    assert Bin(x + 256) == "0b" + ("1" + FixedBits(x, 8));
    assert ("0b" + ("1" + FixedBits(x, 8)))[3..] == FixedBits(x, 8);
    FixedBitsValue(x, 8);
  }

  lemma DecimalHasNoDot(n: int)
    ensures !Contains(IntToDecimal(n), ".")
  {
    NotContainsByFirstChar(IntToDecimal(n), ".");
  }

  /** Splitting a canonical dotted quad gives back the four decimal octets. */
  lemma SplitQuad(a: int, b: int, c: int, d: int)
    ensures Split(Quad(a, b, c, d), ".") ==
            [IntToDecimal(a), IntToDecimal(b), IntToDecimal(c), IntToDecimal(d)]
  {
    var parts := [IntToDecimal(a), IntToDecimal(b), IntToDecimal(c), IntToDecimal(d)];
    DecimalHasNoDot(a); DecimalHasNoDot(b); DecimalHasNoDot(c); DecimalHasNoDot(d);
    SplitJoin(parts, '.');
  }

  /** One decimal octet in front of the others puts its eight bits in front of theirs. */
  lemma OctetsBitsCons(x: int, rest: seq<string>)
    ensures OctetsBits([IntToDecimal(x)] + rest) ==
      match OctetsBits(rest)
      case None => None
      case Some(bits) => Some(OctetBits(x) + bits)
  {
    ParseIntOfDecimal(x);
    assert ([IntToDecimal(x)] + rest)[1..] == rest;
  }

  /** The bit string `ip_to_int` builds for a canonical dotted quad. */
  lemma OctetsBitsOfQuad(a: int, b: int, c: int, d: int)
    ensures OctetsBits([IntToDecimal(a), IntToDecimal(b), IntToDecimal(c), IntToDecimal(d)]) ==
            Some(OctetBits(a) + (OctetBits(b) + (OctetBits(c) + (OctetBits(d) + ""))))
  {
    var pd := [IntToDecimal(d)];
    assert pd == [IntToDecimal(d)] + [];
    OctetsBitsCons(d, []);
    var pc := [IntToDecimal(c)] + pd;
    OctetsBitsCons(c, pd);
    var pb := [IntToDecimal(b)] + pc;
    OctetsBitsCons(b, pc);
    var pa := [IntToDecimal(a)] + pb;
    OctetsBitsCons(a, pb);
    assert pa == [IntToDecimal(a), IntToDecimal(b), IntToDecimal(c), IntToDecimal(d)];
  }

  /** The value of four octets' bits, concatenated as `ip_to_int` does. */
  lemma QuadBitsValue(a: int, b: int, c: int, d: int)
    requires IsOctet(a) && IsOctet(b) && IsOctet(c) && IsOctet(d)
    ensures var bits := OctetBits(a) + (OctetBits(b) + (OctetBits(c) + (OctetBits(d) + "")));
      |bits| == 32 && AllBits(bits) && BitsValue(bits) == QuadValue(a, b, c, d)
  {
    Reassociate4(OctetBits(a), OctetBits(b), OctetBits(c), OctetBits(d));
    NestedBitsValue(a, b, c, d);
  }

  lemma Reassociate4(w: string, x: string, y: string, z: string)
    ensures w + (x + (y + (z + ""))) == ((w + x) + y) + z
  {
    assert z + "" == z;
  }

  lemma NestedBitsValue(a: int, b: int, c: int, d: int)
    requires IsOctet(a) && IsOctet(b) && IsOctet(c) && IsOctet(d)
    ensures var bits := ((OctetBits(a) + OctetBits(b)) + OctetBits(c)) + OctetBits(d);
      |bits| == 32 && AllBits(bits) && BitsValue(bits) == QuadValue(a, b, c, d)
  {
    OctetBitsOfOctet(a); OctetBitsOfOctet(b); OctetBitsOfOctet(c); OctetBitsOfOctet(d);
    var sa, sb, sc, sd := OctetBits(a), OctetBits(b), OctetBits(c), OctetBits(d);
    AppendOctet(sa, sb);
    AppendOctet(sa + sb, sc);
    AppendOctet((sa + sb) + sc, sd);
  }

  /** `ip_to_int` of a canonical dotted quad is its 32-bit number. */
  lemma IpToIntOfQuad(a: int, b: int, c: int, d: int)
    requires IsOctet(a) && IsOctet(b) && IsOctet(c) && IsOctet(d)
    ensures IpToInt(Quad(a, b, c, d)) == Some(QuadValue(a, b, c, d))
  {
    SplitQuad(a, b, c, d);
    OctetsBitsOfQuad(a, b, c, d);
    QuadBitsValue(a, b, c, d);
  }

  lemma ByteAtOfQuadValue(a: int, b: int, c: int, d: int)
    requires IsOctet(a) && IsOctet(b) && IsOctet(c) && IsOctet(d)
    ensures var n := QuadValue(a, b, c, d);
      ByteAt(n, 0x100_0000) == a && ByteAt(n, 0x1_0000) == b && ByteAt(n, 0x100) == c && ByteAt(n, 1) == d
  {
    var n := QuadValue(a, b, c, d);
    assert n == a * 16777216 + (b * 65536 + c * 256 + d);
    assert n / 16777216 == a;
    assert n == (a * 256 + b) * 65536 + (c * 256 + d);
    assert n / 65536 == a * 256 + b;
    assert n == ((a * 256 + b) * 256 + c) * 256 + d;
    assert n / 256 == (a * 256 + b) * 256 + c;
  }

  /** Round trip on canonical strings: `int_to_ip(ip_to_int(s)) == s` for four decimal octets in 0..255. */
  lemma QuadRoundTrip(a: int, b: int, c: int, d: int)
    requires IsOctet(a) && IsOctet(b) && IsOctet(c) && IsOctet(d)
    ensures IpToInt(Quad(a, b, c, d)).Some?
    ensures IntToIp(IpToInt(Quad(a, b, c, d)).value) == Quad(a, b, c, d)
  {
    IpToIntOfQuad(a, b, c, d);
    ByteAtOfQuadValue(a, b, c, d);
  }

  /** The octets of `x` depend only on the low 32 bits of `x`. */
  lemma Octet3OfLow32(x: int)
    ensures ByteAt(x, 0x100_0000) == ByteAt(x % 0x1_0000_0000, 0x100_0000)
  {
    var q, r := x / 0x1_0000_0000, x % 0x1_0000_0000;
    assert x == q * 0x1_0000_0000 + r;
    var t := q * 256 + r / 0x100_0000;
    assert 0x100_0000 * t <= x < 0x100_0000 * t + 0x100_0000;
    assert x / 0x100_0000 == t;
    assert t % 256 == (r / 0x100_0000) % 256;
  }

  lemma Octet2OfLow32(x: int)
    ensures ByteAt(x, 0x1_0000) == ByteAt(x % 0x1_0000_0000, 0x1_0000)
  {
    var q, r := x / 0x1_0000_0000, x % 0x1_0000_0000;
    assert x == q * 0x1_0000_0000 + r;
    var t := q * 0x1_0000 + r / 0x1_0000;
    assert 0x1_0000 * t <= x < 0x1_0000 * t + 0x1_0000;
    assert x / 0x1_0000 == t;
    assert t % 256 == (r / 0x1_0000) % 256;
  }

  lemma Octet1OfLow32(x: int)
    ensures ByteAt(x, 0x100) == ByteAt(x % 0x1_0000_0000, 0x100)
  {
    var q, r := x / 0x1_0000_0000, x % 0x1_0000_0000;
    assert x == q * 0x1_0000_0000 + r;
    var t := q * 0x100_0000 + r / 0x100;
    assert 0x100 * t <= x < 0x100 * t + 0x100;
    assert x / 0x100 == t;
    assert t % 256 == (r / 0x100) % 256;
  }

  lemma Octet0OfLow32(x: int)
    ensures ByteAt(x, 1) == ByteAt(x % 0x1_0000_0000, 1)
  {
    var q, r := x / 0x1_0000_0000, x % 0x1_0000_0000;
    assert x == q * 0x1_0000_0000 + r;
  }

  /** A 32-bit number is the number of its four octets. */
  lemma Decompose32(r: int)
    requires 0 <= r < 0x1_0000_0000
    ensures r == QuadValue(ByteAt(r, 0x100_0000), ByteAt(r, 0x1_0000), ByteAt(r, 0x100), ByteAt(r, 1))
  {
    var r1 := r / 256;
    var r2 := r1 / 256;
    var r3 := r2 / 256;
    assert r / 65536 == r2;
    assert r / 16777216 == r3;
  }

  /** Every integer prints as four octets in 0..255, taken from its low 32 bits. */
  lemma IntToIpShape(x: int)
    ensures IntToIp(x) == Quad(ByteAt(x, 0x100_0000), ByteAt(x, 0x1_0000), ByteAt(x, 0x100), ByteAt(x, 1))
    ensures IsOctet(ByteAt(x, 0x100_0000)) && IsOctet(ByteAt(x, 0x1_0000))
    ensures IsOctet(ByteAt(x, 0x100)) && IsOctet(ByteAt(x, 1))
    ensures x % 0x1_0000_0000 ==
      QuadValue(ByteAt(x, 0x100_0000), ByteAt(x, 0x1_0000), ByteAt(x, 0x100), ByteAt(x, 1))
    ensures IntToIp(x) == IntToIp(x % 0x1_0000_0000)
  {
    Octet3OfLow32(x);
    Octet2OfLow32(x);
    Octet1OfLow32(x);
    Octet0OfLow32(x);
    Decompose32(x % 0x1_0000_0000);
  }

  /** `int_to_ip` always yields exactly four dot-separated pieces, each the decimal form of an octet. */
  lemma IntToIpFourOctets(x: int)
    ensures var parts := Split(IntToIp(x), ".");
      |parts| == 4 && forall i :: 0 <= i < 4 ==>
        exists o :: IsOctet(o) && parts[i] == IntToDecimal(o)
  {
    var a, b, c, d := ByteAt(x, 0x100_0000), ByteAt(x, 0x1_0000), ByteAt(x, 0x100), ByteAt(x, 1);
    SplitQuad(a, b, c, d);
    var parts := Split(IntToIp(x), ".");
    assert parts == [IntToDecimal(a), IntToDecimal(b), IntToDecimal(c), IntToDecimal(d)];
    assert IsOctet(a) && IsOctet(b) && IsOctet(c) && IsOctet(d);
  }

  /** The four octets `int_to_ip` prints, as values. */
  lemma IntToIpParts(x: int) returns (a: int, b: int, c: int, d: int)
    ensures IsOctet(a) && IsOctet(b) && IsOctet(c) && IsOctet(d)
    ensures IntToIp(x) == Quad(a, b, c, d) && x % 0x1_0000_0000 == QuadValue(a, b, c, d)
  {
    a, b, c, d := ByteAt(x, 0x100_0000), ByteAt(x, 0x1_0000), ByteAt(x, 0x100), ByteAt(x, 1);
    IntToIpShape(x);
  }

  /** `IpToIntOfQuad` for a string already known to equal the quad, so that the caller's proof
      never unfolds `Quad` itself. */
  lemma IpToIntOfParts(s: string, a: int, b: int, c: int, d: int)
    requires IsOctet(a) && IsOctet(b) && IsOctet(c) && IsOctet(d)
    requires s == Quad(a, b, c, d)
    ensures IpToInt(s) == Some(QuadValue(a, b, c, d))
  {
    IpToIntOfQuad(a, b, c, d);
  }

  /** Reducing a 32-bit number modulo 2^32 leaves it unchanged; kept apart so that the
      modulus stays out of `IntRoundTrip`'s proof. */
  lemma Low32OfSmall(x: int)
    requires 0 <= x < 0x1_0000_0000
    ensures x % 0x1_0000_0000 == x
  {
  }

  /** Round trip on numbers: `ip_to_int(int_to_ip(n)) == n` for every 32-bit `n`. */
  lemma IntRoundTrip(n: int)
    requires 0 <= n < 0x1_0000_0000
    ensures IpToInt(IntToIp(n)) == Some(n)
  {
    var a, b, c, d := IntToIpParts(n);
    IpToIntOfParts(IntToIp(n), a, b, c, d);
    Low32OfSmall(n);
  }

  // ================================================================ find_next_available_ip

  /** The first number in `[lo, hi]` whose dotted form is not reserved. */
  function FirstFree(lo: int, hi: int, reserved: set<string>): (r: Option<int>)
    ensures r.Some? ==> lo <= r.value <= hi && IntToIp(r.value) !in reserved
    decreases if lo <= hi then hi - lo + 1 else 0
  {
    if lo > hi then None
    else if IntToIp(lo) !in reserved then Some(lo)
    else FirstFree(lo + 1, hi, reserved)
  }

  /** The first free number lies in the range and is free, every number below it in the range
      is reserved, and there is none exactly when the whole range is reserved. */
  lemma {:induction false} FirstFreeSpec(lo: int, hi: int, reserved: set<string>)
    ensures var r := FirstFree(lo, hi, reserved);
      && (r.Some? ==> lo <= r.value <= hi && IntToIp(r.value) !in reserved)
      && (r.Some? ==> forall j :: lo <= j < r.value ==> IntToIp(j) in reserved)
      && (r.None? <==> forall j :: lo <= j <= hi ==> IntToIp(j) in reserved)
    decreases if lo <= hi then hi - lo + 1 else 0
  {
    if lo <= hi && IntToIp(lo) in reserved {
      FirstFreeSpec(lo + 1, hi, reserved);
      var r := FirstFree(lo + 1, hi, reserved);
      assert FirstFree(lo, hi, reserved) == r;
      var top := if r.Some? then r.value - 1 else hi;
      forall j | lo <= j <= top ensures IntToIp(j) in reserved {
        if j > lo {
          assert lo + 1 <= j <= top;
        }
      }
    }
  }

  /** What `find_next_available_ip` produces. */
  datatype Search = Found(ip: string) | Exhausted | BadAddress

  /** The answer of the scan over `[lo, hi]` once both bounds are numbers. */
  function ScanResult(lo: int, hi: int, reserved: set<string>): Search {
    match FirstFree(lo, hi, reserved)
    case Some(k) => Found(IntToIp(k))
    case None => Exhausted
  }

  /** `find_next_available_ip(start_ip, end_ip, reserved_ips)`: `BadAddress` when either
      bound makes `ip_to_int` raise. */
  function NextAvailableIp(startIp: string, endIp: string, reserved: set<string>): Search {
    match (IpToInt(startIp), IpToInt(endIp))
    case (Some(lo), Some(hi)) => ScanResult(lo, hi, reserved)
    case _ => BadAddress
  }

  /** The loop of `find_next_available_ip`, address by address with an early return. */
  method ScanRange(lo: int, hi: int, reserved: set<string>) returns (r: Search)
    ensures r == ScanResult(lo, hi, reserved)
  {
    var ip := lo;
    while ip <= hi
      invariant FirstFree(lo, hi, reserved) == FirstFree(ip, hi, reserved)
      decreases hi - ip
    {
      var candidate := IntToIp(ip);
      if candidate !in reserved {
        return Found(candidate);
      }
      assert FirstFree(ip, hi, reserved) == FirstFree(ip + 1, hi, reserved);
      ip := ip + 1;
    }
    return Exhausted;
  }

  /** `find_next_available_ip`: convert both bounds, then scan. */
  method FindNextAvailableIp(startIp: string, endIp: string, reserved: set<string>) returns (r: Search)
    ensures r == NextAvailableIp(startIp, endIp, reserved)
  {
    var lo := IpToInt(startIp);
    var hi := IpToInt(endIp);
    if lo.None? || hi.None? {
      return BadAddress;
    }
    r := ScanRange(lo.value, hi.value, reserved);
  }

  /** The search result lies in the range, is free, is the lowest free address, and reads
      back as its own number when that number fits in 32 bits; `Exhausted` exactly when every
      address of a well-formed range is reserved (an empty range included). */
  lemma NextAvailableIpSpec(startIp: string, endIp: string, reserved: set<string>)
    ensures NextAvailableIp(startIp, endIp, reserved) == BadAddress <==>
            IpToInt(startIp).None? || IpToInt(endIp).None?
    ensures NextAvailableIp(startIp, endIp, reserved).Found? ==>
      exists k {:trigger IntToIp(k)} :: IpToInt(startIp).value <= k <= IpToInt(endIp).value
        && NextAvailableIp(startIp, endIp, reserved).ip == IntToIp(k)
        && IntToIp(k) !in reserved
        && (forall j :: IpToInt(startIp).value <= j < k ==> IntToIp(j) in reserved)
        && (0 <= k < 0x1_0000_0000 ==> IpToInt(IntToIp(k)) == Some(k))
    ensures NextAvailableIp(startIp, endIp, reserved) == Exhausted <==>
      IpToInt(startIp).Some? && IpToInt(endIp).Some? &&
      forall j :: IpToInt(startIp).value <= j <= IpToInt(endIp).value ==> IntToIp(j) in reserved
  {
    var r := NextAvailableIp(startIp, endIp, reserved);
    if IpToInt(startIp).Some? && IpToInt(endIp).Some? {
      FirstFreeSpec(IpToInt(startIp).value, IpToInt(endIp).value, reserved);
    }
    if r.Found? {
      var k := FirstFree(IpToInt(startIp).value, IpToInt(endIp).value, reserved).value;
      if 0 <= k < 0x1_0000_0000 {
        IntRoundTrip(k);
      }
    }
  }

  // ================================================================ the reservation list

  /** One entry of the server's `reserved-address` table. */
  datatype Reservation = Reservation(ip: string, mac: string, action: string, description: Option<string>)

  /** One entry of the server's `ip-range` table; a bound may be absent. */
  datatype IpRange = IpRange(startIp: Option<string>, endIp: Option<string>)

  /** The fetched server configuration; an absent table is `None`. */
  datatype DhcpConfig = DhcpConfig(ipRanges: Option<seq<IpRange>>, reservedAddresses: Option<seq<Reservation>>)

  /** The addresses already reserved (`fortigate.py:60`). */
  function ReservedIps(rs: seq<Reservation>): set<string> {
    set i | 0 <= i < |rs| :: rs[i].ip
  }

  /** The lease `add_dhcp_reservation` appends. */
  function Lease(ip: string, mac: string, seat: string): Reservation {
    Reservation(ip, mac, "reserved", Some(seat))
  }

  /** The first `ip-range` entry exists and carries both bounds. */
  predicate HasFirstBounds(cfg: DhcpConfig) {
    cfg.ipRanges.GetOr([]) != [] && cfg.ipRanges.value[0].startIp.Some? && cfg.ipRanges.value[0].endIp.Some?
  }

  /** The search `add_dhcp_reservation` runs: over the first range, against the reserved ips. */
  function FirstRangeSearch(cfg: DhcpConfig): Search
    requires HasFirstBounds(cfg)
  {
    NextAvailableIp(cfg.ipRanges.value[0].startIp.value, cfg.ipRanges.value[0].endIp.value,
                    ReservedIps(cfg.reservedAddresses.GetOr([])))
  }

  /** What `add_dhcp_reservation` does: raise, or return a value after possibly writing a new list. */
  datatype AddOutcome = Raised | Returned(ip: Option<string>, written: Option<seq<Reservation>>)

  /** `add_dhcp_reservation(mac, seat, ...)` given the fetched configuration (`None` when the GET
      failed or returned an empty object) and whether the PUT succeeds. */
  function AddReservation(mac: string, seat: string, config: Option<DhcpConfig>, putOk: bool): (r: AddOutcome)
    // nothing is written without a configuration, a first range, or a free address in it
    ensures config.None? ==> r == Returned(None, None)
    ensures config.Some? && config.value.ipRanges.GetOr([]) == [] ==> r == Returned(None, None)
    ensures r.Returned? && r.written.Some? ==>
      var old0 := config.value.reservedAddresses.GetOr([]);
      var w := r.written.value;
      var first := config.value.ipRanges.value[0];
      // the new list is the old list, untouched and in order, plus one lease
      && |w| == |old0| + 1
      && w == old0 + [Lease(w[|old0|].ip, mac, seat)]
      // the address comes from the first range, is the lowest free one there, and is new
      && first.startIp.Some? && first.endIp.Some?
      && NextAvailableIp(first.startIp.value, first.endIp.value, ReservedIps(old0)) == Found(w[|old0|].ip)
      && w[|old0|].ip !in ReservedIps(old0)
      // the caller gets the address exactly when the PUT succeeded
      && r.ip == (if putOk then Some(w[|old0|].ip) else None)
    ensures r.Returned? && r.written.None? ==> r.ip.None?
    // a free address in the first range is always appended and written
    ensures config.Some? && HasFirstBounds(config.value) && FirstRangeSearch(config.value).Found? ==>
      var ip := FirstRangeSearch(config.value).ip;
      r == Returned(if putOk then Some(ip) else None,
                    Some(config.value.reservedAddresses.GetOr([]) + [Lease(ip, mac, seat)]))
    // an exhausted first range returns `None` and writes nothing
    ensures config.Some? && HasFirstBounds(config.value) && FirstRangeSearch(config.value) == Exhausted ==>
      r == Returned(None, None)
    // it raises exactly when the first range lacks a bound or `ip_to_int` cannot convert one
    ensures r.Raised? <==>
      config.Some? && config.value.ipRanges.GetOr([]) != [] &&
      (!HasFirstBounds(config.value) || FirstRangeSearch(config.value) == BadAddress)
  {
    if config.None? then Returned(None, None)
    else
      var ranges := config.value.ipRanges.GetOr([]);
      if ranges == [] then Returned(None, None)
      else
        var reserved := config.value.reservedAddresses.GetOr([]);
        if ranges[0].startIp.None? || ranges[0].endIp.None? then Raised
        else
          match NextAvailableIp(ranges[0].startIp.value, ranges[0].endIp.value, ReservedIps(reserved))
          case BadAddress => Raised
          case Exhausted => Returned(None, None)
          case Found(ip) =>
            Returned(if putOk then Some(ip) else None, Some(reserved + [Lease(ip, mac, seat)]))
  }

  /** The reservations whose mac is not one of the seat macs, in order (`fortigate.py:115`). */
  function KeepUnlisted(rs: seq<Reservation>, macs: seq<string>): seq<Reservation> {
    Seqs.Filter(rs, (r: Reservation) => r.mac !in macs)
  }

  /** What `remove_dhcp_reservations` returns and the list it writes back, if any. */
  datatype RemoveOutcome = RemoveOutcome(removed: int, written: Option<seq<Reservation>>)

  /** `remove_dhcp_reservations(seat_macs, ...)` given the fetched configuration and whether the PUT succeeds. */
  function RemoveReservations(macs: seq<string>, config: Option<DhcpConfig>, putOk: bool): (r: RemoveOutcome)
    ensures config.None? ==> r == RemoveOutcome(0, None)
    ensures config.Some? ==> r.written == Some(KeepUnlisted(config.value.reservedAddresses.GetOr([]), macs))
    ensures config.Some? ==>
      r.removed == (if putOk then |config.value.reservedAddresses.GetOr([])| - |r.written.value| else 0)
  {
    if config.None? then RemoveOutcome(0, None)
    else
      var reserved := config.value.reservedAddresses.GetOr([]);
      var updated := KeepUnlisted(reserved, macs);
      RemoveOutcome(if putOk then |reserved| - |updated| else 0, Some(updated))
  }

  /** The written list keeps exactly the entries whose mac is not listed, in their order,
      and the count is the number of entries whose mac is listed. */
  lemma KeepUnlistedSpec(rs: seq<Reservation>, macs: seq<string>)
    ensures forall i :: 0 <= i < |KeepUnlisted(rs, macs)| ==> KeepUnlisted(rs, macs)[i].mac !in macs
    ensures forall x :: multiset(KeepUnlisted(rs, macs))[x] == if x.mac in macs then 0 else multiset(rs)[x]
    ensures Seqs.IsSubseq(KeepUnlisted(rs, macs), rs)
    ensures |rs| - |KeepUnlisted(rs, macs)| == |Seqs.Filter(rs, (r: Reservation) => r.mac in macs)|
  {
    var p := (r: Reservation) => r.mac !in macs;
    Seqs.FilterExact(rs, p);
    Seqs.FilterIsSubseq(rs, p);
    Seqs.FilterPartition(rs, p, (r: Reservation) => r.mac in macs);
  }

  /** Removing the same macs again from the written list removes nothing. */
  lemma RemoveIdempotent(macs: seq<string>, cfg: DhcpConfig, putOk: bool)
    ensures var w := RemoveReservations(macs, Some(cfg), putOk).written.value;
      RemoveReservations(macs, Some(cfg.(reservedAddresses := Some(w))), putOk) ==
      RemoveOutcome(0, Some(w))
  {
    var p := (r: Reservation) => r.mac !in macs;
    Seqs.FilterIdempotent(cfg.reservedAddresses.GetOr([]), p);
  }

  /** Entry `i` is the first whose description is `seat`. */
  predicate IsFirstMatch(rs: seq<Reservation>, seat: string, i: int) {
    0 <= i < |rs| && rs[i].description == Some(seat) &&
    forall j :: 0 <= j < i ==> rs[j].description != Some(seat)
  }

  /** The ip of the first reservation whose description is `seat`, as `validate_dhcp_by_name` looks for it. */
  function FirstIpFor(rs: seq<Reservation>, seat: string): Option<string> {
    if rs == [] then None
    else if rs[0].description == Some(seat) then Some(rs[0].ip)
    else FirstIpFor(rs[1..], seat)
  }

  /** No ip exactly when no entry carries the seat's name; otherwise the ip of the first that does. */
  lemma {:induction false} FirstIpForSpec(rs: seq<Reservation>, seat: string)
    ensures FirstIpFor(rs, seat).None? <==> forall i :: 0 <= i < |rs| ==> rs[i].description != Some(seat)
    ensures FirstIpFor(rs, seat).Some? ==>
      exists i :: IsFirstMatch(rs, seat, i) && rs[i].ip == FirstIpFor(rs, seat).value
  {
    if rs == [] {
    } else if rs[0].description == Some(seat) {
      assert IsFirstMatch(rs, seat, 0);
    } else {
      FirstIpForSpec(rs[1..], seat);
      var r := FirstIpFor(rs[1..], seat);
      if r.Some? {
        var i :| IsFirstMatch(rs[1..], seat, i) && rs[1..][i].ip == r.value;
        assert IsFirstMatch(rs, seat, i + 1);
      } else {
        forall i | 0 <= i < |rs| ensures rs[i].description != Some(seat) {
          if i > 0 {
            assert rs[i] == rs[1..][i - 1];
          }
        }
      }
    }
  }

  /** `validate_dhcp_by_name(seat, ...)`: the loop over the reservations with an early return. */
  method ValidateDhcpByName(seat: string, config: Option<DhcpConfig>) returns (ip: Option<string>)
    ensures config.None? ==> ip.None?
    ensures config.Some? ==> ip == FirstIpFor(config.value.reservedAddresses.GetOr([]), seat)
  {
    if config.None? {
      return None;
    }
    var reserved := config.value.reservedAddresses.GetOr([]);
    var i := 0;
    while i < |reserved|
      invariant 0 <= i <= |reserved|
      invariant FirstIpFor(reserved, seat) == FirstIpFor(reserved[i..], seat)
    {
      assert reserved[i..][1..] == reserved[i + 1..];
      assert FirstIpFor(reserved[i..], seat) ==
        if reserved[i].description == Some(seat) then Some(reserved[i].ip)
        else FirstIpFor(reserved[i + 1..], seat);
      if reserved[i].description == Some(seat) {
        return Some(reserved[i].ip);
      }
      i := i + 1;
    }
    return None;
  }

  // ---------------------------------------------------------------- operations together

  /** Appending a lease for a mac no entry uses and then filtering that mac out gives the old list back. */
  lemma {:induction false} RemoveAfterAppend(rs: seq<Reservation>, lease: Reservation)
    requires forall i :: 0 <= i < |rs| ==> rs[i].mac != lease.mac
    ensures KeepUnlisted(rs + [lease], [lease.mac]) == rs
    ensures |rs + [lease]| - |KeepUnlisted(rs + [lease], [lease.mac])| == 1
  {
    var p := (r: Reservation) => r.mac !in [lease.mac];
    Seqs.FilterAppend(rs, [lease], p);
    Seqs.FilterAll(rs, p);
  }

  /** Adding a lease for a mac no entry uses, then removing that mac, writes back the original list. */
  lemma AddThenRemove(mac: string, seat: string, cfg: DhcpConfig, putOk: bool, putOk2: bool)
    requires forall i :: 0 <= i < |cfg.reservedAddresses.GetOr([])| ==> cfg.reservedAddresses.GetOr([])[i].mac != mac
    requires HasFirstBounds(cfg) && FirstRangeSearch(cfg).Found?
    ensures AddReservation(mac, seat, Some(cfg), putOk).written.Some?
    ensures var w := AddReservation(mac, seat, Some(cfg), putOk).written.value;
      RemoveReservations([mac], Some(cfg.(reservedAddresses := Some(w))), putOk2) ==
      RemoveOutcome(if putOk2 then 1 else 0, Some(cfg.reservedAddresses.GetOr([])))
  {
    var old0 := cfg.reservedAddresses.GetOr([]);
    var w := AddReservation(mac, seat, Some(cfg), putOk).written.value;
    var lease := w[|old0|];
    assert w == old0 + [lease] && lease.mac == mac;
    RemoveAfterAppend(old0, lease);
  }

  /** Right after the add, validating the seat finds the new address, provided no earlier entry
      already carried the seat's name. */
  lemma AddThenValidate(mac: string, seat: string, cfg: DhcpConfig, putOk: bool)
    requires forall i :: 0 <= i < |cfg.reservedAddresses.GetOr([])| ==>
      cfg.reservedAddresses.GetOr([])[i].description != Some(seat)
    requires HasFirstBounds(cfg) && FirstRangeSearch(cfg).Found?
    ensures AddReservation(mac, seat, Some(cfg), putOk).written.Some?
    ensures var w := AddReservation(mac, seat, Some(cfg), putOk).written.value;
      FirstIpFor(w, seat) == Some(w[|w| - 1].ip)
  {
    var w := AddReservation(mac, seat, Some(cfg), putOk).written.value;
    var old0 := cfg.reservedAddresses.GetOr([]);
    assert |w| == |old0| + 1;
    assert forall j :: 0 <= j < |old0| ==> w[j] == old0[j];
    FirstIpForSpec(w, seat);
  }
}
