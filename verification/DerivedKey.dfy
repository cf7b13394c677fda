/** Derived public keys: printing them with their origin, and parsing them back. */
module DerivedKey {
  import opened Wrappers
  import opened Bitcoin

  /** A point of the curve, of which only the serialisation matters. */
  type Point = nat

  /** The foreign point serialisation, compressed or not. */
  datatype PointCodec = PointCodec(encode: (Point, bool) -> Bytes, decode: Bytes -> Option<Point>) {
    ghost predicate Valid() {
      forall point: Point, compressed: bool ::
        && |encode(point, compressed)| == (if compressed then 33 else 65)
        && decode(encode(point, compressed)) == Some(point)
    }
  }

  datatype Key = Key(point: Point, compressed: bool)

  type index31 = n: nat | n < 0x8000_0000

  datatype ChildNumber = Normal(index: index31) | Hardened(index: index31)

  type Fingerprint = b: Bytes | |b| == 4 witness [0, 0, 0, 0]

  datatype DerivedPublicKey = DerivedPublicKey(fingerprint: Fingerprint, child: ChildNumber, key: Key)

  datatype ParseError = DerivedKeyParsing

  const OPEN: byte := 0x5b   // '['
  const CLOSE: byte := 0x5d  // ']'
  const SLASH: byte := 0x2f  // '/'
  const PLUS: byte := 0x2b   // '+'
  const QUOTE: byte := 0x27  // '\''
  const HARD: byte := 0x68   // 'h'
  const ZERO: byte := 0x30   // '0'

  // ----- hexadecimal

  function HexDigit(n: nat): byte
    requires n < 16
  {
    if n < 10 then ZERO + n else 0x61 + (n - 10)
  }

  /** Either case is read. */
  function HexValue(c: byte): (r: Option<nat>)
    ensures r.Some? ==> r.value < 16
  {
    if ZERO <= c < ZERO + 10 then Some((c - ZERO))
    else if 0x61 <= c < 0x67 then Some((c - 0x61) + 10)
    else if 0x41 <= c < 0x47 then Some((c - 0x41) + 10)
    else None
  }

  function ToHex(b: Bytes): (r: Bytes)
    ensures |r| == 2 * |b|
  {
    if b == [] then [] else [HexDigit(b[0] / 16), HexDigit(b[0] % 16)] + ToHex(b[1..])
  }

  function FromHex(s: Bytes): (r: Option<Bytes>)
    ensures r.Some? ==> |s| == 2 * |r.value|
  {
    if s == [] then Some([])
    else if |s| == 1 then None
    else
      var high, low, rest := HexValue(s[0]), HexValue(s[1]), FromHex(s[2..]);
      if high.Some? && low.Some? && rest.Some? then
        Some([(16 * high.value + low.value)] + rest.value)
      else
        None
  }

  lemma {:induction false} HexRoundTrip(b: Bytes)
    ensures FromHex(ToHex(b)) == Some(b)
    ensures forall c | c in ToHex(b) :: Printable(c)
  {
    if b != [] {
      HexRoundTrip(b[1..]);
      var s := ToHex(b);
      assert s[2..] == ToHex(b[1..]);
      assert HexValue(s[0]) == Some(b[0] / 16) && HexValue(s[1]) == Some(b[0] % 16);
      assert b == [b[0]] + b[1..];
    }
  }

  /** Hexadecimal is printed in lower case. */
  lemma {:induction false} HexIsLower(b: Bytes)
    ensures forall c | c in ToHex(b) :: 0x30 <= c <= 0x39 || 0x61 <= c <= 0x66
  {
    if b != [] {
      HexIsLower(b[1..]);
    }
  }

  function LowerDigit(c: byte): byte { if 0x41 <= c <= 0x46 then c + 0x20 else c }

  function Lower(s: Bytes): (r: Bytes)
    ensures |r| == |s| && forall i | 0 <= i < |s| :: r[i] == LowerDigit(s[i])
  {
    seq(|s|, i requires 0 <= i < |s| => LowerDigit(s[i]))
  }

  /** The accepted spellings of some bytes are the printed one with any of its letters in upper case. */
  lemma {:induction false} HexAccepts(s: Bytes, b: Bytes)
    ensures FromHex(s) == Some(b) <==> Lower(s) == ToHex(b)
    decreases |s|
  {
    if |s| >= 2 && b != [] {
      HexAccepts(s[2..], b[1..]);
      DigitAccepts(s[0], b[0] / 16);
      DigitAccepts(s[1], b[0] % 16);
      LowerCons(s);
      HexCons(s, b);
      PairIs(Lower(s), s, b);
    }
  }

  lemma DigitAccepts(c: byte, n: nat)
    requires n < 16
    ensures HexValue(c) == Some(n) <==> LowerDigit(c) == HexDigit(n)
  {
  }

  lemma LowerCons(s: Bytes)
    requires |s| >= 2
    ensures Lower(s) == [LowerDigit(s[0]), LowerDigit(s[1])] + Lower(s[2..])
  {
  }

  lemma HexCons(s: Bytes, b: Bytes)
    requires |s| >= 2 && b != []
    ensures FromHex(s) == Some(b) <==>
            HexValue(s[0]) == Some(b[0] / 16) && HexValue(s[1]) == Some(b[0] % 16) && FromHex(s[2..]) == Some(b[1..])
  {
    var high, low, rest := HexValue(s[0]), HexValue(s[1]), FromHex(s[2..]);
    if high.Some? && low.Some? && rest.Some? {
      ConsEquals(16 * high.value + low.value, rest.value, b);
      Nibbles(high.value, low.value, b[0]);
    }
  }

  lemma ConsEquals(x: byte, t: Bytes, b: Bytes)
    requires b != []
    ensures [x] + t == b <==> x == b[0] && t == b[1..]
  {
    assert b == [b[0]] + b[1..];
    assert ([x] + t)[0] == x && ([x] + t)[1..] == t;
  }

  lemma Nibbles(high: nat, low: nat, x: nat)
    requires high < 16 && low < 16
    ensures 16 * high + low == x <==> high == x / 16 && low == x % 16
  {
  }

  lemma PairIs(lower: Bytes, s: Bytes, b: Bytes)
    requires |s| >= 2 && b != [] && lower == [LowerDigit(s[0]), LowerDigit(s[1])] + Lower(s[2..])
    ensures lower == ToHex(b) <==>
            && LowerDigit(s[0]) == HexDigit(b[0] / 16) && LowerDigit(s[1]) == HexDigit(b[0] % 16)
            && Lower(s[2..]) == ToHex(b[1..])
  {
    var hex := ToHex(b);
    assert hex == [HexDigit(b[0] / 16), HexDigit(b[0] % 16)] + ToHex(b[1..]);
    if lower == hex {
      assert lower[0] == hex[0] && lower[1] == hex[1];
      assert lower[2..] == Lower(s[2..]) && hex[2..] == ToHex(b[1..]);
    }
  }

  // ----- decimal

  function ToDecimal(n: nat): (r: Bytes)
    ensures |r| >= 1
  {
    var last := [ZERO + (n % 10)];
    if n < 10 then last else ToDecimal(n / 10) + last
  }

  /** Digits read from the left; a value over 32 bits is an error. */
  function Digits(s: Bytes): Option<nat> {
    if s == [] then Some(0)
    else
      var init, c := Digits(s[..|s| - 1]), s[|s| - 1];
      if init.None? || !(ZERO <= c < ZERO + 10) then None
      else
        var n := 10 * init.value + (c - ZERO);
        if n <= 0xffff_ffff then Some(n) else None
  }

  /** A leading plus sign is allowed before at least one digit, and so are leading zeros. */
  function FromDecimal(s: Bytes): Option<nat> {
    if s == [] || s == [PLUS] then None
    else if s[0] == PLUS then Digits(s[1..])
    else Digits(s)
  }

  lemma {:induction false} DecimalRoundTrip(n: nat)
    requires n <= 0xffff_ffff
    ensures Digits(ToDecimal(n)) == Some(n)
    ensures forall c | c in ToDecimal(n) :: ZERO <= c < ZERO + 10
  {
    var s := ToDecimal(n);
    if n >= 10 {
      DecimalRoundTrip(n / 10);
      assert s[..|s| - 1] == ToDecimal(n / 10);
    } else {
      assert s[..|s| - 1] == [] && Digits([]) == Some(0);
    }
    assert s[|s| - 1] == ZERO + (n % 10);
  }

  /** A number is printed without leading zeros. */
  lemma {:induction false} DecimalIsShort(n: nat)
    ensures n > 0 ==> ToDecimal(n)[0] != 0x30
    ensures n == 0 ==> ToDecimal(n) == [0x30]
  {
    if n >= 10 {
      DecimalIsShort(n / 10);
    }
  }

  function Zeros(z: nat): Bytes { seq(z, _ => 0x30) }

  /** The accepted spellings of a number are the printed one after any number of zeros. */
  lemma {:induction false} DigitsAccept(s: Bytes, n: nat) returns (z: nat)
    requires s != [] && Digits(s) == Some(n)
    ensures n <= 0xffff_ffff && s == Zeros(z) + ToDecimal(n)
    decreases |s|
  {
    var init, c := s[..|s| - 1], s[|s| - 1];
    assert s == init + [c];
    if init == [] {
      z := 0;
    } else {
      var m := Digits(init).value;
      z := DigitsAccept(init, m);
      DigitMore(z, m, c);
      if m == 0 {
        z := z + 1;
      }
    }
  }

  lemma DigitMore(z: nat, m: nat, c: byte)
    requires ZERO <= c < ZERO + 10
    ensures Zeros(z) + ToDecimal(m) + [c] ==
            Zeros(if m == 0 then z + 1 else z) + ToDecimal(10 * m + (c - ZERO))
  {
    var n := 10 * m + (c - ZERO);
    if m == 0 {
      assert ToDecimal(n) == [c] && ToDecimal(0) == [0x30];
      assert Zeros(z + 1) == Zeros(z) + [0x30];
    } else {
      assert n / 10 == m && n % 10 == c - ZERO;
      assert ToDecimal(n) == ToDecimal(m) + [c];
    }
  }

  lemma {:induction false} ZerosAreNothing(z: nat)
    ensures Digits(Zeros(z)) == Some(0)
  {
    if z > 0 {
      ZerosAreNothing(z - 1);
      assert Zeros(z)[..z - 1] == Zeros(z - 1);
    }
  }

  lemma {:induction false} LeadingZeros(z: nat, n: nat)
    requires n <= 0xffff_ffff
    ensures Digits(Zeros(z) + ToDecimal(n)) == Some(n)
  {
    var s := Zeros(z) + ToDecimal(n);
    if n < 10 {
      ZerosAreNothing(z);
      assert s[..|s| - 1] == Zeros(z);
    } else {
      LeadingZeros(z, n / 10);
      assert s[..|s| - 1] == Zeros(z) + ToDecimal(n / 10);
    }
    assert s[|s| - 1] == ZERO + n % 10;
  }

  /** And after an optional plus sign; nothing else, and nothing over 32 bits. */
  ghost predicate SpellsNumber(s: Bytes, n: nat) {
    && n <= 0xffff_ffff
    && exists z: nat :: s == Zeros(z) + ToDecimal(n) || s == [0x2b] + (Zeros(z) + ToDecimal(n))
  }

  lemma DecimalAccepts(s: Bytes, n: nat)
    ensures FromDecimal(s) == Some(n) <==> SpellsNumber(s, n)
  {
    if FromDecimal(s) == Some(n) {
      var digits := if s[0] == PLUS then s[1..] else s;
      var z := DigitsAccept(digits, n);
      assert s[0] == PLUS ==> s == [0x2b] + (Zeros(z) + ToDecimal(n));
    }
    if SpellsNumber(s, n) {
      var z: nat :| s == Zeros(z) + ToDecimal(n) || s == [0x2b] + (Zeros(z) + ToDecimal(n));
      SpellingIsRead(s, z, n);
    }
  }

  lemma SpellingIsRead(s: Bytes, z: nat, n: nat)
    requires n <= 0xffff_ffff && (s == Zeros(z) + ToDecimal(n) || s == [0x2b] + (Zeros(z) + ToDecimal(n)))
    ensures FromDecimal(s) == Some(n)
  {
    var digits := Zeros(z) + ToDecimal(n);
    LeadingZeros(z, n);
    FirstDigit(z, n);
    if s != digits {
      assert s[0] == PLUS && s[1..] == digits;
    }
  }

  lemma FirstDigit(z: nat, n: nat)
    requires n <= 0xffff_ffff
    ensures (Zeros(z) + ToDecimal(n))[0] != PLUS
  {
    DecimalRoundTrip(n);
    assert ToDecimal(n)[0] in ToDecimal(n);
  }

  // ----- child numbers and keys

  function PrintChild(child: ChildNumber): Bytes {
    match child
    case Normal(index) => ToDecimal(index)
    case Hardened(index) => ToDecimal(index) + [QUOTE]
  }

  function ParseChild(s: Bytes): Option<ChildNumber> {
    var hardened := s != [] && (s[|s| - 1] == QUOTE || s[|s| - 1] == HARD);
    var index := FromDecimal(if hardened then s[..|s| - 1] else s);
    if index.None? || index.value >= 0x8000_0000 then None
    else Some(if hardened then Hardened(index.value) else Normal(index.value))
  }

  /** An index in decimal is not mistaken for a hardened one. */
  lemma NormalRoundTrip(index: index31)
    ensures var s := ToDecimal(index);
            && s != [] && s[|s| - 1] != QUOTE && s[|s| - 1] != HARD
            && ParseChild(s) == Some(Normal(index))
    ensures forall c | c in ToDecimal(index) :: Printable(c)
  {
    var s := ToDecimal(index);
    DecimalRoundTrip(index);
    assert s[0] in s && s[|s| - 1] in s;
    assert FromDecimal(s) == Digits(s);
  }

  /** The suffix is dropped before the digits are read. */
  lemma HardenedRoundTrip(index: index31)
    ensures var s := ToDecimal(index) + [QUOTE];
            && s[|s| - 1] == QUOTE && s[..|s| - 1] == ToDecimal(index)
            && ParseChild(s) == Some(Hardened(index))
    ensures forall c | c in ToDecimal(index) + [QUOTE] :: Printable(c)
  {
    var digits := ToDecimal(index);
    DecimalRoundTrip(index);
    assert digits[0] in digits;
    assert (digits + [QUOTE])[..|digits|] == digits;
    assert FromDecimal(digits) == Digits(digits);
  }

  lemma ChildRoundTrip(child: ChildNumber)
    ensures ParseChild(PrintChild(child)) == Some(child)
    ensures PrintChild(child) != [] && forall c | c in PrintChild(child) :: Printable(c)
  {
    if child.Normal? {
      NormalRoundTrip(child.index);
    } else {
      HardenedRoundTrip(child.index);
    }
  }

  lemma LastDigit(s: Bytes, n: nat)
    requires SpellsNumber(s, n)
    ensures s != [] && s[|s| - 1] == ZERO + n % 10
  {
    var z: nat :| s == Zeros(z) + ToDecimal(n) || s == [0x2b] + (Zeros(z) + ToDecimal(n));
    var digits := ToDecimal(n);
    assert digits[|digits| - 1] == ZERO + n % 10;
  }

  /** Which strings are read as an index: a spelling of a number under 2 to the 31, followed by a quote or an h if it is
      hardened. */
  lemma ChildAccepts(s: Bytes, child: ChildNumber)
    ensures ParseChild(s) == Some(child) <==>
            if child.Normal? then SpellsNumber(s, child.index)
            else s != [] && s[|s| - 1] in [0x27, 0x68] && SpellsNumber(s[..|s| - 1], child.index)
  {
    if child.Normal? {
      DecimalAccepts(s, child.index);
      if SpellsNumber(s, child.index) {
        LastDigit(s, child.index);
      }
    } else if s != [] {
      DecimalAccepts(s[..|s| - 1], child.index);
    }
  }

  function PrintKey(codec: PointCodec, key: Key): Bytes { ToHex(codec.encode(key.point, key.compressed)) }

  function ParseKey(codec: PointCodec, s: Bytes): Option<Key> {
    var b := FromHex(s);
    if b.None? || (|b.value| != 33 && |b.value| != 65) then None
    else
      var point := codec.decode(b.value);
      if point.None? then None else Some(Key(point.value, |s| == 66))
  }

  // ----- splitting

  /** What precedes the first separator, if there is one. */
  function Before(s: Bytes, c: byte): Bytes {
    if s == [] || s[0] == c then [] else [s[0]] + Before(s[1..], c)
  }

  /** What follows the first separator. */
  function After(s: Bytes, c: byte): Option<Bytes> {
    if s == [] then None else if s[0] == c then Some(s[1..]) else After(s[1..], c)
  }

  lemma {:induction false} BeforeAll(s: Bytes, c: byte)
    requires c !in s
    ensures Before(s, c) == s
  {
    if s != [] {
      BeforeAll(s[1..], c);
    }
  }

  lemma {:induction false} SplitAtFirst(s: Bytes, c: byte, t: Bytes)
    requires c !in s
    ensures Before(s + ([c] + t), c) == s
    ensures After(s + ([c] + t), c) == Some(t)
  {
    var whole := s + ([c] + t);
    if s == [] {
      assert whole == [c] + t;
    } else {
      SplitAtFirst(s[1..], c, t);
      assert whole[1..] == s[1..] + ([c] + t);
    }
  }

  // ----- printing and parsing

  function Print(codec: PointCodec, k: DerivedPublicKey): Bytes {
    [OPEN] + (Origin(k) + ([CLOSE] + PrintKey(codec, k.key)))
  }

  function Origin(k: DerivedPublicKey): Bytes {
    ToHex(k.fingerprint) + ([SLASH] + PrintChild(k.child))
  }

  /** The byte after the fingerprint is not looked at. */
  function ParseOrigin(s: Bytes): (r: Option<(Fingerprint, ChildNumber)>) {
    if |s| < 10 then None
    else
      var fingerprint, child := FromHex(s[..8]), ParseChild(s[9..]);
      if fingerprint.None? || child.None? || child.value.Hardened? then None
      else Some((fingerprint.value, child.value))
  }

  predicate InRange(c: byte) { 20 <= c <= 127 }

  /** What printing a key puts between the separators. */
  predicate Printable(c: byte) { InRange(c) && c != CLOSE }

  /** A second closing bracket ends the key: anything after it is ignored. */
  function Parse(codec: PointCodec, s: Bytes): Result<DerivedPublicKey, ParseError> {
    if |s| < 78 || !(forall c | c in s :: InRange(c)) || s[0] != OPEN then Err(DerivedKeyParsing)
    else
      var origin, rest := ParseOrigin(Before(s[1..], CLOSE)), After(s[1..], CLOSE);
      if origin.None? || rest.None? then Err(DerivedKeyParsing)
      else
        var key := ParseKey(codec, Before(rest.value, CLOSE));
        if key.None? then Err(DerivedKeyParsing)
        else Ok(DerivedPublicKey(origin.value.0, origin.value.1, key.value))
  }

  lemma KeyRoundTrip(codec: PointCodec, key: Key)
    requires codec.Valid()
    ensures ParseKey(codec, PrintKey(codec, key)) == Some(key)
    ensures |PrintKey(codec, key)| >= 66
    ensures forall c | c in PrintKey(codec, key) :: Printable(c)
  {
    HexRoundTrip(codec.encode(key.point, key.compressed));
  }

  lemma OriginRoundTrip(k: DerivedPublicKey)
    ensures |Origin(k)| >= 10 && forall c | c in Origin(k) :: Printable(c)
    ensures ParseOrigin(Origin(k)) == if k.child.Normal? then Some((k.fingerprint, k.child)) else None
  {
    HexRoundTrip(k.fingerprint);
    ChildRoundTrip(k.child);
    OriginParts(k);
  }

  lemma OriginParts(k: DerivedPublicKey)
    ensures |Origin(k)| == 9 + |PrintChild(k.child)|
    ensures Origin(k)[..8] == ToHex(k.fingerprint) && Origin(k)[9..] == PrintChild(k.child)
    ensures forall c | c in Origin(k) :: c == SLASH || c in ToHex(k.fingerprint) || c in PrintChild(k.child)
  {
  }

  /** Parsing a bracketed origin and what follows it. */
  lemma ParseParts(codec: PointCodec, origin: Bytes, rest: Bytes)
    requires |origin| + |rest| >= 76 && CLOSE !in origin
    requires (forall c | c in origin :: InRange(c)) && forall c | c in rest :: InRange(c)
    ensures var parsed, key := ParseOrigin(origin), ParseKey(codec, Before(rest, CLOSE));
            Parse(codec, [OPEN] + (origin + ([CLOSE] + rest))) ==
            if parsed.None? || key.None? then Err(DerivedKeyParsing)
            else Ok(DerivedPublicKey(parsed.value.0, parsed.value.1, key.value))
  {
    Bracketed(origin, rest);
    SplitAtFirst(origin, CLOSE, rest);
  }

  lemma Bracketed(origin: Bytes, rest: Bytes)
    requires (forall c | c in origin :: InRange(c)) && forall c | c in rest :: InRange(c)
    ensures var s := [OPEN] + (origin + ([CLOSE] + rest));
            && |s| == |origin| + |rest| + 2 && s[0] == OPEN && s[1..] == origin + ([CLOSE] + rest)
            && forall c | c in s :: InRange(c)
  {
    var s := [OPEN] + (origin + ([CLOSE] + rest));
    assert forall c | c in s :: c == OPEN || c == CLOSE || c in origin || c in rest;
    assert InRange(OPEN) && InRange(CLOSE);
  }

  lemma {:induction false} SplitIs(s: Bytes, c: byte)
    ensures c !in Before(s, c)
    ensures After(s, c).Some? ==> s == Before(s, c) + ([c] + After(s, c).value)
    ensures After(s, c).None? ==> s == Before(s, c)
  {
    if s != [] {
      if s[0] != c {
        SplitIs(s[1..], c);
      }
      assert s == [s[0]] + s[1..];
    }
  }

  /** Hexadecimal digits are none of the separators. */
  lemma {:induction false} HexHasNoBracket(s: Bytes)
    requires FromHex(s).Some?
    ensures CLOSE !in s
  {
    if s != [] {
      HexHasNoBracket(s[2..]);
      assert s == [s[0], s[1]] + s[2..];
    }
  }

  lemma NumberHasNoBracket(s: Bytes, n: nat)
    requires SpellsNumber(s, n)
    ensures CLOSE !in s
  {
    DecimalRoundTrip(n);
  }

  /** A spelling of the origin: eight hexadecimal digits in any case, any byte but a closing bracket, and a number. */
  ghost predicate SpellsOrigin(s: Bytes, fingerprint: Fingerprint, index: nat) {
    && |s| >= 10 && s[8] != 0x5d
    && Lower(s[..8]) == ToHex(fingerprint) && SpellsNumber(s[9..], index)
  }

  lemma OriginAccepts(s: Bytes, fingerprint: Fingerprint, index: index31)
    ensures CLOSE !in s && ParseOrigin(s) == Some((fingerprint, Normal(index))) <==> SpellsOrigin(s, fingerprint, index)
  {
    if |s| >= 10 {
      assert s == s[..8] + [s[8]] + s[9..];
      HexAccepts(s[..8], fingerprint);
      ChildAccepts(s[9..], Normal(index));
      if SpellsOrigin(s, fingerprint, index) {
        HexHasNoBracket(s[..8]);
        NumberHasNoBracket(s[9..], index);
      }
    }
  }

  /** A spelling of a key: the hexadecimal digits, in any case, of 33 or 65 bytes that decode to its point. */
  ghost predicate SpellsKey(codec: PointCodec, s: Bytes, key: Key) {
    exists b: Bytes ::
      && Lower(s) == ToHex(b) && codec.decode(b) == Some(key.point)
      && |b| == (if key.compressed then 33 else 65)
  }

  lemma KeyAccepts(codec: PointCodec, s: Bytes, key: Key)
    ensures CLOSE !in s && ParseKey(codec, s) == Some(key) <==> SpellsKey(codec, s, key)
  {
    if ParseKey(codec, s) == Some(key) {
      HexAccepts(s, FromHex(s).value);
    }
    if SpellsKey(codec, s, key) {
      var b: Bytes :| Lower(s) == ToHex(b) && codec.decode(b) == Some(key.point)
                      && |b| == (if key.compressed then 33 else 65);
      KeySpellingIsRead(codec, s, key, b);
    }
  }

  lemma KeySpellingIsRead(codec: PointCodec, s: Bytes, key: Key, b: Bytes)
    requires Lower(s) == ToHex(b) && codec.decode(b) == Some(key.point)
    requires |b| == (if key.compressed then 33 else 65)
    ensures CLOSE !in s && ParseKey(codec, s) == Some(key)
  {
    HexAccepts(s, b);
    HexHasNoBracket(s);
    KeyFromBytes(codec, s, key, b);
  }

  lemma KeyFromBytes(codec: PointCodec, s: Bytes, key: Key, b: Bytes)
    requires FromHex(s) == Some(b) && codec.decode(b) == Some(key.point)
    requires |b| == (if key.compressed then 33 else 65)
    ensures ParseKey(codec, s) == Some(key)
  {
  }

  /** A string spells a key with its origin when it is an opening bracket, an origin, a closing bracket and a key, and
      maybe another closing bracket and anything more. */
  ghost predicate Spells(codec: PointCodec, s: Bytes, k: DerivedPublicKey, origin: Bytes, key: Bytes, tail: Bytes) {
    && s == [0x5b] + (origin + ([0x5d] + (key + tail))) && (tail == [] || tail[0] == 0x5d)
    && k.child.Normal? && SpellsOrigin(origin, k.fingerprint, k.child.index) && SpellsKey(codec, key, k.key)
  }

  /** The grammar of the parser: it accepts exactly the spellings of at least 78 bytes from 20 to 127. */
  lemma ParseAccepts(codec: PointCodec, s: Bytes, k: DerivedPublicKey)
    ensures Parse(codec, s) == Ok(k) <==>
            && |s| >= 78 && (forall c | c in s :: 20 <= c <= 127)
            && exists origin, key, tail :: Spells(codec, s, k, origin, key, tail)
  {
    assert (forall c | c in s :: InRange(c)) <==> forall c | c in s :: 20 <= c <= 127;
    if Parse(codec, s) == Ok(k) {
      AcceptedSpells(codec, s, k);
    }
    if |s| >= 78 && (forall c | c in s :: InRange(c))
       && exists origin, key, tail :: Spells(codec, s, k, origin, key, tail)
    {
      var origin, key, tail :| Spells(codec, s, k, origin, key, tail);
      SpellingAccepted(codec, s, k, origin, key, tail);
    }
  }

  lemma AcceptedSpells(codec: PointCodec, s: Bytes, k: DerivedPublicKey)
    requires Parse(codec, s) == Ok(k)
    ensures exists origin, key, tail :: Spells(codec, s, k, origin, key, tail)
  {
    var origin, rest, key, tail := AcceptedParts(codec, s);
    OriginAccepts(origin, k.fingerprint, k.child.index);
    KeyAccepts(codec, key, k.key);
    assert Spells(codec, s, k, origin, key, tail);
  }

  /** What an accepted string was split into. */
  lemma AcceptedParts(codec: PointCodec, s: Bytes) returns (origin: Bytes, rest: Bytes, key: Bytes, tail: Bytes)
    requires Parse(codec, s).Ok?
    ensures s == [0x5b] + (origin + ([0x5d] + (key + tail))) && (tail == [] || tail[0] == 0x5d)
    ensures CLOSE !in origin && CLOSE !in key
    ensures var parsed, read := ParseOrigin(origin), ParseKey(codec, key);
            && parsed.Some? && read.Some?
            && Parse(codec, s) == Ok(DerivedPublicKey(parsed.value.0, parsed.value.1, read.value))
  {
    origin, rest := Before(s[1..], CLOSE), After(s[1..], CLOSE).value;
    key := Before(rest, CLOSE);
    SplitIs(s[1..], CLOSE);
    SplitIs(rest, CLOSE);
    tail := if After(rest, CLOSE).Some? then [CLOSE] + After(rest, CLOSE).value else [];
    assert rest == key + tail;
    assert s == [s[0]] + s[1..];
  }

  lemma SpellingAccepted(codec: PointCodec, s: Bytes, k: DerivedPublicKey, origin: Bytes, key: Bytes, tail: Bytes)
    requires |s| >= 78 && (forall c | c in s :: InRange(c)) && Spells(codec, s, k, origin, key, tail)
    ensures Parse(codec, s) == Ok(k)
  {
    OriginAccepts(origin, k.fingerprint, k.child.index);
    KeyAccepts(codec, key, k.key);
    KeyEnds(key, tail);
    assert forall c | c in origin :: c in s;
    assert forall c | c in key + tail :: c in s;
    ParseParts(codec, origin, key + tail);
  }

  /** The key stops at the next closing bracket. */
  lemma KeyEnds(key: Bytes, tail: Bytes)
    requires CLOSE !in key && (tail == [] || tail[0] == CLOSE)
    ensures Before(key + tail, CLOSE) == key
  {
    if tail == [] {
      assert key + tail == key;
      BeforeAll(key, CLOSE);
    } else {
      assert tail == [CLOSE] + tail[1..];
      SplitAtFirst(key, CLOSE, tail[1..]);
    }
  }

  /** The printed form: bracketed, a slash between the eight lower-case digits of the fingerprint and the index in
      decimal without leading zeros, with a quote if it is hardened, and the digits of the key. */
  lemma PrintIs(codec: PointCodec, k: DerivedPublicKey)
    ensures var index := ToDecimal(k.child.index) + (if k.child.Hardened? then [0x27] else []);
            Print(codec, k) == [0x5b] + (ToHex(k.fingerprint) + ([0x2f] + index)
                               + ([0x5d] + ToHex(codec.encode(k.key.point, k.key.compressed))))
    ensures |ToHex(k.fingerprint)| == 8
    ensures forall c | c in ToHex(k.fingerprint) :: 0x30 <= c <= 0x39 || 0x61 <= c <= 0x66
    ensures ToDecimal(k.child.index)[0] != 0x30 || k.child.index == 0
  {
    HexIsLower(k.fingerprint);
    DecimalIsShort(k.child.index);
    if k.child.Normal? {
      assert ToDecimal(k.child.index) + [] == ToDecimal(k.child.index);
    }
  }

  /** A printed key parses back exactly when its index is not hardened. */
  lemma RoundTrip(codec: PointCodec, k: DerivedPublicKey)
    requires codec.Valid()
    ensures Parse(codec, Print(codec, k)) == if k.child.Normal? then Ok(k) else Err(DerivedKeyParsing)
  {
    KeyRoundTrip(codec, k.key);
    OriginRoundTrip(k);
    BeforeAll(PrintKey(codec, k.key), CLOSE);
    ParseParts(codec, Origin(k), PrintKey(codec, k.key));
  }

  /** Whatever form a key was accepted in, printing settles it. */
  lemma ParsePrintParse(codec: PointCodec, s: Bytes)
    requires codec.Valid() && Parse(codec, s).Ok?
    ensures Parse(codec, Print(codec, Parse(codec, s).value)) == Parse(codec, s)
  {
    RoundTrip(codec, Parse(codec, s).value);
  }

  /** So acceptance does not make a string canonical: a closing bracket hides whatever follows. */
  lemma TrailingBytesAreIgnored(codec: PointCodec, k: DerivedPublicKey, junk: Bytes)
    requires codec.Valid() && k.child.Normal? && forall c | c in junk :: InRange(c)
    ensures Parse(codec, Print(codec, k) + ([CLOSE] + junk)) == Ok(k)
  {
    var key := PrintKey(codec, k.key);
    var rest := key + ([CLOSE] + junk);
    KeyRoundTrip(codec, k.key);
    OriginRoundTrip(k);
    SplitAtFirst(key, CLOSE, junk);
    assert forall c | c in rest :: c in key || c == CLOSE || c in junk;
    ParseParts(codec, Origin(k), rest);
    Reassociate(Origin(k), key, junk);
  }

  lemma Reassociate(origin: Bytes, key: Bytes, junk: Bytes)
    ensures [OPEN] + (origin + ([CLOSE] + key)) + ([CLOSE] + junk) ==
            [OPEN] + (origin + ([CLOSE] + (key + ([CLOSE] + junk))))
  {
  }

  /** Different keys print differently. */
  lemma PrintIsInjective(codec: PointCodec, k: DerivedPublicKey, l: DerivedPublicKey)
    requires codec.Valid() && Print(codec, k) == Print(codec, l)
    ensures k == l
  {
    KeyRoundTrip(codec, k.key);
    KeyRoundTrip(codec, l.key);
    OriginRoundTrip(k);
    OriginRoundTrip(l);
    SplitAtFirst(Origin(k), CLOSE, PrintKey(codec, k.key));
    SplitAtFirst(Origin(l), CLOSE, PrintKey(codec, l.key));
    assert Print(codec, k)[1..] == Origin(k) + ([CLOSE] + PrintKey(codec, k.key));
    assert Print(codec, l)[1..] == Origin(l) + ([CLOSE] + PrintKey(codec, l.key));
    SameOrigin(k, l);
  }

  lemma SameOrigin(k: DerivedPublicKey, l: DerivedPublicKey)
    requires Origin(k) == Origin(l)
    ensures k.fingerprint == l.fingerprint && k.child == l.child
  {
    HexRoundTrip(k.fingerprint);
    HexRoundTrip(l.fingerprint);
    ChildRoundTrip(k.child);
    ChildRoundTrip(l.child);
    OriginParts(k);
    OriginParts(l);
  }
}
