/**
 `match_cidr` of `src/upstream.rs`: address blocks and the mask test (RFC 4632 section 3.1,
 RFC 4291 section 2.3).
 */
module Networks {
  import opened Wrappers
  import opened Addresses
  import opened Text

  function Pow2(k: nat): (r: nat)
    ensures r >= 1
  {
    if k == 0 then 1 else 2 * Pow2(k - 1)
  }

  // Bitwise and.
  function And(a: nat, b: nat): nat {
    if a == 0 || b == 0 then 0
    else 2 * And(a / 2, b / 2) + (if a % 2 == 1 && b % 2 == 1 then 1 else 0)
  }

  predicate Bit(x: nat, i: nat) {
    if i == 0 then x % 2 == 1 else Bit(x / 2, i - 1)
  }

  // `x << k` in a word of `width` bits: each single shift drops the top bit.
  function ShiftLeft(x: nat, k: nat, width: nat): nat {
    if k == 0 then x else (2 * ShiftLeft(x, k - 1, width)) % Pow2(width)
  }

  function Mask(prefix: nat, width: nat): nat
    requires prefix <= width
  {
    if prefix == 0 then 0 else ShiftLeft(Pow2(width) - 1, width - prefix, width)
  }

  datatype Network = Host(host: Ip) | Block(base: Ip, prefix: U8) | Malformed

  type AddressParser = string -> Option<Ip>

  // An entry is an address, or an address, a slash and a length; further parts are ignored.
  function ParseNetwork(parse: AddressParser, cidr: string): Network {
    var parts := Split(cidr, '/');
    match parse(parts[0])
    case None => Malformed
    case Some(base) =>
      if |parts| == 1 then Host(base)
      else
        match ParseUnsigned(parts[1], 255)
        case None => Malformed
        case Some(p) => Block(base, p)
  }

  predicate Contains(n: Network, ip: Ip) {
    match n
    case Malformed => false
    case Host(host) => ip == host
    case Block(base, prefix) =>
      match (ip, base)
      case (V4(x), V4(b)) => prefix <= 32 && And(x, Mask(prefix, 32)) == And(b, Mask(prefix, 32))
      case (V6(x), V6(b)) => prefix <= 128 && And(x, Mask(prefix, 128)) == And(b, Mask(prefix, 128))
      case _ => false
  }

  predicate MatchCidr(parse: AddressParser, ip: Ip, cidr: string) {
    Contains(ParseNetwork(parse, cidr), ip)
  }

  /// The mask test is a comparison of leading bits

  lemma {:induction false} AndIsBitwise(a: nat, b: nat, i: nat)
    ensures Bit(And(a, b), i) <==> Bit(a, i) && Bit(b, i)
    decreases i
  {
    if a == 0 || b == 0 {
      ZeroHasNoBits(i);
    } else if i > 0 {
      AndIsBitwise(a / 2, b / 2, i - 1);
    }
  }

  lemma {:induction false} ZeroHasNoBits(i: nat)
    ensures !Bit(0, i)
  {
    if i > 0 {
      ZeroHasNoBits(i - 1);
    }
  }

  lemma {:induction false} Pow2Grows(k: nat, n: nat)
    requires k <= n
    ensures Pow2(k) <= Pow2(n)
    decreases n
  {
    if k < n {
      Pow2Grows(k, n - 1);
    }
  }

  lemma SubtractOnce(v: nat, w: nat)
    requires w > 0 && w <= v < 2 * w
    ensures v % w == v - w
  {
    assert v == (v - w) + w;
  }

  lemma {:induction false} ShiftedOnes(k: nat, width: nat)
    requires k < width
    ensures Pow2(k) <= Pow2(width)
    ensures ShiftLeft(Pow2(width) - 1, k, width) == Pow2(width) - Pow2(k)
  {
    Pow2Grows(k, width);
    if k > 0 {
      ShiftedOnes(k - 1, width);
      SubtractOnce(2 * (Pow2(width) - Pow2(k - 1)), Pow2(width));
    }
  }

  // `x >> k`, and `x` with its low `k` bits cleared.
  function ShiftRight(x: nat, k: nat): nat {
    if k == 0 then x else ShiftRight(x / 2, k - 1)
  }

  function Clear(x: nat, k: nat): nat {
    if k == 0 then x else 2 * Clear(x / 2, k - 1)
  }

  lemma {:induction false} AndMask(x: nat, k: nat, width: nat)
    requires k <= width && x < Pow2(width)
    ensures Pow2(k) <= Pow2(width)
    ensures And(x, Pow2(width) - Pow2(k)) == Clear(x, k)
    decreases width
  {
    Pow2Grows(k, width);
    if width == 0 {
    } else if k == 0 {
      AndMask(x / 2, 0, width - 1);
      assert (Pow2(width) - 1) / 2 == Pow2(width - 1) - 1;
    } else {
      AndMask(x / 2, k - 1, width - 1);
      var half := Pow2(width - 1) - Pow2(k - 1);
      assert Pow2(width) - Pow2(k) == 2 * half;
      AndEven(x, half);
    }
  }

  lemma AndEven(x: nat, b: nat)
    ensures And(x, 2 * b) == 2 * And(x / 2, b)
  {
  }

  lemma {:induction false} ClearIsShift(x: nat, y: nat, k: nat)
    ensures Clear(x, k) == Clear(y, k) <==> ShiftRight(x, k) == ShiftRight(y, k)
  {
    if k > 0 {
      ClearIsShift(x / 2, y / 2, k - 1);
    }
  }

  lemma MulAtLeast(m: int, d: int)
    requires m > 0 && d >= 1
    ensures m * d >= m
  {
  }

  lemma DivUnique(x: int, m: int, q: int, r: int)
    requires m > 0 && x == m * q + r && 0 <= r < m
    ensures x / m == q
  {
    var d := q - x / m;
    assert m * d == x % m - r;
    if d >= 1 {
      MulAtLeast(m, d);
    } else if d <= -1 {
      MulAtLeast(m, -d);
    }
  }

  lemma HalfThenDivide(x: nat, m: nat)
    requires m > 0
    ensures x / 2 / m == x / (2 * m)
  {
    var q, r := x / 2 / m, x / 2 % m;
    assert x / 2 == m * q + r;
    assert (2 * m) * q == 2 * (m * q);
    DivUnique(x, 2 * m, q, 2 * r + x % 2);
  }

  lemma {:induction false} ShiftIsQuotient(x: nat, k: nat)
    ensures ShiftRight(x, k) == x / Pow2(k)
  {
    if k > 0 {
      ShiftIsQuotient(x / 2, k - 1);
      HalfThenDivide(x, Pow2(k - 1));
    }
  }

  // For every width and prefix, the mask test compares the quotients by the block size.
  lemma MaskTestIsQuotient(x: nat, b: nat, prefix: nat, width: nat)
    requires prefix <= width && x < Pow2(width) && b < Pow2(width)
    ensures And(x, Mask(prefix, width)) == And(b, Mask(prefix, width))
            <==> x / Pow2(width - prefix) == b / Pow2(width - prefix)
  {
    var k := width - prefix;
    if prefix > 0 {
      ShiftedOnes(k, width);
    }
    AndMask(x, k, width);
    AndMask(b, k, width);
    ClearIsShift(x, b, k);
    ShiftIsQuotient(x, k);
    ShiftIsQuotient(b, k);
  }

  /// Blocks as sets of addresses

  function Width(ip: Ip): nat { if ip.V4? then 32 else 128 }

  function Value(ip: Ip): nat {
    match ip case V4(x) => x case V6(x) => x
  }

  predicate SameFamily(a: Ip, b: Ip) { a.V4? == b.V4? }

  predicate ValidBlock(n: Network) {
    n.Block? && n.prefix <= Width(n.base)
  }

  lemma {:induction false} Pow2Adds(a: nat, b: nat)
    ensures Pow2(a + b) == Pow2(a) * Pow2(b)
  {
    if a > 0 {
      Pow2Adds(a - 1, b);
      assert 2 * (Pow2(a - 1) * Pow2(b)) == (2 * Pow2(a - 1)) * Pow2(b);
    }
  }

  lemma Squares(n: nat, v: nat)
    requires Pow2(n) == v
    ensures Pow2(2 * n) == v * v
  {
    Pow2Adds(n, n);
  }

  lemma TopOfRange()
    ensures Pow2(32) == 0x1_0000_0000
    ensures Pow2(128) == 0x1_0000_0000_0000_0000_0000_0000_0000_0000
  {
    Squares(8, 0x100);
    Squares(16, 0x1_0000);
    Squares(32, 0x1_0000_0000);
    Squares(64, 0x1_0000_0000_0000_0000);
  }

  lemma InRange(ip: Ip)
    ensures Value(ip) < Pow2(Width(ip))
  {
    TopOfRange();
  }

  // A valid block holds the addresses of its family that agree with its base on the leading bits.
  lemma BlockIsQuotient(n: Network, ip: Ip)
    requires ValidBlock(n)
    ensures Contains(n, ip) <==>
            SameFamily(ip, n.base)
            && Value(ip) / Pow2(Width(n.base) - n.prefix) == Value(n.base) / Pow2(Width(n.base) - n.prefix)
    ensures Contains(n, ip) <==>
            SameFamily(ip, n.base)
            && ShiftRight(Value(ip), Width(n.base) - n.prefix) == ShiftRight(Value(n.base), Width(n.base) - n.prefix)
  {
    hide And, Mask, ShiftRight, Pow2;
    InRange(ip);
    InRange(n.base);
    if SameFamily(ip, n.base) {
      var k := Width(n.base) - n.prefix;
      MaskTestIsQuotient(Value(ip), Value(n.base), n.prefix, Width(n.base));
      ShiftIsQuotient(Value(ip), k);
      ShiftIsQuotient(Value(n.base), k);
    }
  }

  // A bare address is its own full-length block.
  lemma HostIsFullBlock(host: Ip, ip: Ip)
    ensures Contains(Host(host), ip) <==> Contains(Block(host, Width(host)), ip)
  {
    BlockIsQuotient(Block(host, Width(host)), ip);
  }

  lemma {:induction false} ShiftFurther(x: nat, k: nat, n: nat)
    ensures ShiftRight(x, k + n) == ShiftRight(ShiftRight(x, k), n)
  {
    if k > 0 {
      ShiftFurther(x / 2, k - 1, n);
    }
  }

  // The wider block fixes fewer leading bits, and the two bases agree on those.
  predicate Covers(wide: Network, narrow: Network)
    requires ValidBlock(wide) && ValidBlock(narrow)
  {
    && SameFamily(wide.base, narrow.base)
    && wide.prefix <= narrow.prefix
    && Contains(wide, narrow.base)
  }

  lemma CoversContains(wide: Network, narrow: Network, ip: Ip)
    requires ValidBlock(wide) && ValidBlock(narrow) && Covers(wide, narrow) && Contains(narrow, ip)
    ensures Contains(wide, ip)
  {
    var k, n := Width(narrow.base) - narrow.prefix, narrow.prefix - wide.prefix;
    BlockIsQuotient(wide, narrow.base);
    BlockIsQuotient(wide, ip);
    BlockIsQuotient(narrow, ip);
    ShiftFurther(Value(ip), k, n);
    ShiftFurther(Value(narrow.base), k, n);
  }

  lemma BaseIsInside(n: Network)
    requires ValidBlock(n)
    ensures Contains(n, n.base)
  {
    BlockIsQuotient(n, n.base);
  }

  // Any two valid blocks are nested or disjoint.
  lemma NestedOrDisjoint(a: Network, b: Network)
    requires ValidBlock(a) && ValidBlock(b)
    ensures || (forall ip :: Contains(a, ip) ==> Contains(b, ip))
            || (forall ip :: Contains(b, ip) ==> Contains(a, ip))
            || (forall ip :: !(Contains(a, ip) && Contains(b, ip)))
  {
    if x :| Contains(a, x) && Contains(b, x) {
      BlockIsQuotient(a, x);
      BlockIsQuotient(b, x);
      if a.prefix <= b.prefix {
        CommonCovers(a, b, x);
        forall ip | Contains(b, ip) ensures Contains(a, ip) { CoversContains(a, b, ip); }
      } else {
        CommonCovers(b, a, x);
        forall ip | Contains(a, ip) ensures Contains(b, ip) { CoversContains(b, a, ip); }
      }
    }
  }

  lemma CommonCovers(wide: Network, narrow: Network, x: Ip)
    requires ValidBlock(wide) && ValidBlock(narrow) && wide.prefix <= narrow.prefix
    requires Contains(wide, x) && Contains(narrow, x)
    ensures Covers(wide, narrow)
  {
    var k, n := Width(narrow.base) - narrow.prefix, narrow.prefix - wide.prefix;
    BlockIsQuotient(wide, x);
    BlockIsQuotient(narrow, x);
    BlockIsQuotient(wide, narrow.base);
    ShiftFurther(Value(x), k, n);
    ShiftFurther(Value(narrow.base), k, n);
  }

  // `x` with its bit `k` turned over.
  function Flip(x: nat, k: nat): nat {
    if k == 0 then (if x % 2 == 0 then x + 1 else x - 1)
    else 2 * Flip(x / 2, k - 1) + x % 2
  }

  lemma {:induction false} FlipShifts(x: nat, k: nat, width: nat)
    requires k < width && x < Pow2(width)
    ensures Flip(x, k) < Pow2(width)
    ensures ShiftRight(Flip(x, k), k) != ShiftRight(x, k)
    ensures ShiftRight(Flip(x, k), k + 1) == ShiftRight(x, k + 1)
    decreases k
  {
    if k > 0 {
      FlipShifts(x / 2, k - 1, width - 1);
      assert Flip(x, k) / 2 == Flip(x / 2, k - 1);
    }
  }

  // A longer prefix around the same base leaves out the address with its last bit turned over.
  lemma LongerLeavesOut(wide: Network, narrow: Network) returns (other: Ip)
    requires ValidBlock(wide) && ValidBlock(narrow)
    requires wide.prefix > narrow.prefix && Contains(wide, narrow.base)
    ensures Contains(narrow, other) && !Contains(wide, other)
  {
    hide Contains, Flip, ShiftRight, Pow2;
    var width, x := Width(narrow.base), Value(narrow.base);
    BlockIsQuotient(wide, narrow.base);
    var k := width - wide.prefix;
    InRange(narrow.base);
    FlipShifts(x, k, width);
    TopOfRange();
    other := if narrow.base.V4? then V4(Flip(x, k)) else V6(Flip(x, k));
    var n := width - narrow.prefix - (k + 1);
    ShiftFurther(x, k + 1, n);
    ShiftFurther(Flip(x, k), k + 1, n);
    BlockIsQuotient(narrow, other);
    BlockIsQuotient(wide, other);
  }

  // Covering is exactly inclusion of the two sets of addresses.
  lemma CoversExactly(wide: Network, narrow: Network)
    requires ValidBlock(wide) && ValidBlock(narrow)
    ensures Covers(wide, narrow) <==> forall ip :: Contains(narrow, ip) ==> Contains(wide, ip)
  {
    hide Contains;
    BaseIsInside(narrow);
    if Covers(wide, narrow) {
      forall ip | Contains(narrow, ip) ensures Contains(wide, ip) { CoversContains(wide, narrow, ip); }
    } else if Contains(wide, narrow.base) {
      BlockIsQuotient(wide, narrow.base);
      var other := LongerLeavesOut(wide, narrow);
      assert Contains(narrow, other) && !Contains(wide, other);
    }
  }

  /// Entries as text

  // An address in a block of `prefix` leading bits: both of one family, and with the same
  // quotient by the size of the block.
  predicate InBlock(base: Ip, prefix: nat, ip: Ip) {
    match (base, ip)
    case (V4(b), V4(x)) => prefix <= 32 && x / Pow2(32 - prefix) == b / Pow2(32 - prefix)
    case (V6(b), V6(x)) => prefix <= 128 && x / Pow2(128 - prefix) == b / Pow2(128 - prefix)
    case _ => false
  }

  lemma ContainsIsInBlock(n: Network, ip: Ip)
    ensures Contains(n, ip) <==>
            match n
            case Host(host) => ip == host
            case Block(base, prefix) => InBlock(base, prefix, ip)
            case Malformed => false
  {
    hide And, Mask, ShiftRight;
    if ValidBlock(n) {
      BlockIsQuotient(n, ip);
    }
  }

  lemma EntryParts(base: string, length: string, more: string)
    requires '/' !in base && '/' !in length
    ensures Split(base, '/') == [base] && Split(base + "/" + length, '/') == [base, length]
    ensures var parts := Split(base + "/" + length + "/" + more, '/');
            |parts| > 2 && parts[0] == base && parts[1] == length
  {
    FindNone(base, '/');
    FindNone(length, '/');
    SplitAt(base, '/', length);
    SplitAt(base, '/', length + "/" + more);
    SplitAt(length, '/', more);
    hide Split;
    assert base + ['/'] + length == base + "/" + length;
    assert length + ['/'] + more == length + "/" + more;
    assert base + ['/'] + (length + "/" + more) == base + "/" + length + "/" + more;
  }

  // A text without a slash names one address; `address/length`, and anything after a
  // second slash, names the block when the length is a number that fits; every other text
  // matches nothing.
  lemma EntryIsRead(parse: AddressParser, ip: Ip, base: string, length: string, more: string)
    requires '/' !in base && '/' !in length
    ensures MatchCidr(parse, ip, base) <==> parse(base) == Some(ip)
    ensures MatchCidr(parse, ip, base + "/" + length) <==>
            && parse(base).Some? && ParseUnsigned(length, 255).Some?
            && InBlock(parse(base).value, ParseUnsigned(length, 255).value, ip)
    ensures MatchCidr(parse, ip, base + "/" + length + "/" + more) <==> MatchCidr(parse, ip, base + "/" + length)
  {
    hide Contains, Split, ParseUnsigned, InBlock;
    EntryParts(base, length, more);
    ContainsIsInBlock(ParseNetwork(parse, base), ip);
    ContainsIsInBlock(ParseNetwork(parse, base + "/" + length), ip);
  }
}
