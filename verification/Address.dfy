/** Ethereum addresses as text, with the EIP-55 checksum carried in the case of the letters. */
module Address {
  import opened Wrappers
  import opened Bytes

  const ADDRESS_LENGTH: nat := 20
  const ADDRESS_HEX_LENGTH: nat := 40

  type Address = a: Bytes | |a| == 20 witness seq(20, _ => 0)
  type Digest = d: Bytes | |d| == 32 witness seq(32, _ => 0)

  datatype AddressError = InvalidLength(length: nat) | InvalidCharacter(c: char) | InvalidChecksum

  // --- characters -------------------------------------------------------------------------------------

  predicate IsLower(c: char) { 'a' <= c <= 'f' }
  predicate IsUpper(c: char) { 'A' <= c <= 'F' }
  predicate IsHex(c: char) { '0' <= c <= '9' || IsLower(c) || IsUpper(c) }

  function HexValue(c: char): (v: nat)
    requires IsHex(c)
    ensures v < 16
  {
    if IsLower(c) then c as int - 'a' as int + 10
    else if IsUpper(c) then c as int - 'A' as int + 10
    else c as int - '0' as int
  }

  /** A nibble as `{:x}` prints it. */
  function HexDigit(v: nat): (c: char)
    requires v < 16
    ensures IsHex(c) && !IsUpper(c) && HexValue(c) == v
  {
    if v < 10 then '0' + v as char else 'a' + (v - 10) as char
  }

  function Upper(c: char): (u: char)
    ensures IsHex(c) ==> IsHex(u) && !IsLower(u) && HexValue(u) == HexValue(c)
  {
    if 'a' <= c <= 'z' then c - 'a' + 'A' else c
  }

  function Lower(c: char): (l: char)
    ensures IsHex(c) ==> IsHex(l) && !IsUpper(l) && HexValue(l) == HexValue(c)
  {
    if 'A' <= c <= 'Z' then c - 'A' + 'a' else c
  }

  function Nibble(bytes: Bytes, i: nat): (v: nat)
    requires i < 2 * |bytes|
    ensures v < 16
  {
    if i % 2 == 0 then bytes[i / 2] / 16 else bytes[i / 2] % 16
  }

  /** How many bytes a character takes in UTF-8. */
  function Utf8Length(c: char): nat {
    if c < '\U{0080}' then 1 else if c < '\U{0800}' then 2 else if c < '\U{10000}' then 3 else 4
  }

  /** Where UTF-8 takes another byte, as section 3 of RFC 3629 has it. */
  lemma Utf8Lengths(c: char, d: char)
    ensures Utf8Length('\U{0000}') == 1 == Utf8Length('\U{007F}')
    ensures Utf8Length('\U{0080}') == 2 == Utf8Length('\U{07FF}')
    ensures Utf8Length('\U{0800}') == 3 == Utf8Length('\U{FFFF}')
    ensures Utf8Length('\U{10000}') == 4 == Utf8Length('\U{10FFFF}')
    ensures c <= d ==> Utf8Length(c) <= Utf8Length(d)
  {
  }

  function ByteLength(s: string): nat {
    if s == "" then 0 else ByteLength(s[..|s| - 1]) + Utf8Length(s[|s| - 1])
  }

  predicate AllHex(s: string) {
    forall i :: 0 <= i < |s| ==> IsHex(s[i])
  }

  lemma {:induction false} HexIsAscii(s: string)
    requires AllHex(s)
    ensures ByteLength(s) == |s|
  {
    if s != "" {
      HexIsAscii(s[..|s| - 1]);
    }
  }

  // --- printing -------------------------------------------------------------------------------------------

  function LowerHex(a: Address): (s: string)
    ensures |s| == ADDRESS_HEX_LENGTH && AllHex(s)
  {
    seq(ADDRESS_HEX_LENGTH, i requires 0 <= i < ADDRESS_HEX_LENGTH => HexDigit(Nibble(a, i)))
  }

  function UpperHex(a: Address): (s: string)
    ensures |s| == ADDRESS_HEX_LENGTH && AllHex(s)
  {
    seq(ADDRESS_HEX_LENGTH, i requires 0 <= i < ADDRESS_HEX_LENGTH => Upper(LowerHex(a)[i]))
  }

  /** The case of each letter is one bit of the hash of the lowercase text. */
  function ChecksumHex(keccak: string -> Digest, a: Address): (s: string)
    ensures |s| == ADDRESS_HEX_LENGTH && AllHex(s)
  {
    var lower := LowerHex(a);
    var hash := keccak(lower);
    seq(ADDRESS_HEX_LENGTH, i requires 0 <= i < ADDRESS_HEX_LENGTH =>
      if Nibble(hash, i) >= 8 then Upper(lower[i]) else lower[i])
  }

  method ToLowercaseHex(a: Address) returns (out: string)
    ensures out == LowerHex(a)
  {
    out := "";
    var i := 0;
    while i < ADDRESS_LENGTH
      invariant 0 <= i <= ADDRESS_LENGTH && |out| == 2 * i
      invariant forall k :: 0 <= k < 2 * i ==> out[k] == HexDigit(Nibble(a, k))
    {
      var byte := a[i];
      out := out + [HexDigit(byte / 16), HexDigit(byte % 16)];
      i := i + 1;
    }
  }

  method ToChecksumHex(keccak: string -> Digest, a: Address) returns (out: string)
    ensures out == ChecksumHex(keccak, a)
  {
    var lowercase := ToLowercaseHex(a);
    var hash := keccak(lowercase);
    out := "";
    var i := 0;
    while i < |lowercase|
      invariant 0 <= i == |out| <= |lowercase|
      invariant out == ChecksumHex(keccak, a)[..i]
    {
      var nibble := if i % 2 == 0 then hash[i / 2] / 16 else hash[i / 2] % 16;
      out := out + [if nibble >= 8 then Upper(lowercase[i]) else lowercase[i]];
      i := i + 1;
    }
  }

  method ToChecksumString(keccak: string -> Digest, a: Address) returns (out: string)
    ensures out == "0x" + ChecksumHex(keccak, a)
  {
    var hex := ToChecksumHex(keccak, a);
    out := "0x" + hex;
  }

  // --- parsing ------------------------------------------------------------------------------------------------

  function StripPrefix(input: string): string {
    if "0x" <= input || "0X" <= input then input[2..] else input
  }

  /** The text spells the address, in whatever case. */
  predicate Spells(hex: string, a: Address) {
    && |hex| == ADDRESS_HEX_LENGTH && AllHex(hex)
    && forall i :: 0 <= i < ADDRESS_HEX_LENGTH ==> HexValue(hex[i]) == Nibble(a, i)
  }

  predicate MixedCase(hex: string) {
    (exists i :: 0 <= i < |hex| && IsUpper(hex[i])) && (exists i :: 0 <= i < |hex| && IsLower(hex[i]))
  }

  /** What `validate_address` promises to accept. */
  predicate Accepts(keccak: string -> Digest, input: string, a: Address) {
    var hex := StripPrefix(input);
    Spells(hex, a) && (MixedCase(hex) ==> hex == ChecksumHex(keccak, a))
  }

  /** The bytes spelled by the first `n` hex characters are in place, the rest of the array is untouched. */
  ghost predicate Filled(bytes: seq<Byte>, hex: string, n: nat)
    requires |bytes| == 20 && n <= |hex| <= 40 && forall i :: 0 <= i < n ==> IsHex(hex[i])
  {
    && (forall i :: 0 <= i < n ==> HexValue(hex[i]) == Nibble(bytes, i))
    && (n % 2 == 1 ==> bytes[n / 2] % 16 == 0)
  }

  /** One more character: its nibble is written, and no earlier one is disturbed. */
  lemma FilledStep(bytes: seq<Byte>, hex: string, n: nat)
    requires |bytes| == 20 && n < |hex| <= 40 && forall i :: 0 <= i <= n ==> IsHex(hex[i])
    requires Filled(bytes, hex, n)
    ensures var byte := if n % 2 == 0 then HexValue(hex[n]) * 16 else bytes[n / 2] + HexValue(hex[n]);
      byte < 256 && Filled(bytes[n / 2 := byte], hex, n + 1)
  {
    var byte := if n % 2 == 0 then HexValue(hex[n]) * 16 else bytes[n / 2] + HexValue(hex[n]);
    var after := bytes[n / 2 := byte];
    forall i | 0 <= i < n + 1 ensures HexValue(hex[i]) == Nibble(after, i) {
      if i < n {
        assert HexValue(hex[i]) == Nibble(bytes, i);
      }
    }
  }

  ghost predicate SomeUpper(hex: string, n: nat)
    requires n <= |hex|
  {
    exists k :: 0 <= k < n && IsUpper(hex[k])
  }

  ghost predicate SomeLower(hex: string, n: nat)
    requires n <= |hex|
  {
    exists k :: 0 <= k < n && IsLower(hex[k])
  }

  /** The parsing loop, into a buffer of twenty bytes; stops at the first character that is not hex. */
  method ParseHex(hex: string) returns (bytes: array<Byte>, bad: Option<nat>, hasUpper: bool, hasLower: bool)
    requires |hex| <= 40
    ensures bytes.Length == 20 && fresh(bytes)
    ensures bad.Some? ==> bad.value < |hex| && !IsHex(hex[bad.value]) && AllHex(hex[..bad.value])
    ensures bad.None? ==> AllHex(hex) && Filled(bytes[..], hex, |hex|)
    ensures bad.None? ==> (hasUpper <==> SomeUpper(hex, |hex|)) && (hasLower <==> SomeLower(hex, |hex|))
  {
    bytes := new Byte[20](_ => 0);
    bad, hasUpper, hasLower := None, false, false;
    var i := 0;
    while i < |hex|
      invariant 0 <= i <= |hex| && forall k :: 0 <= k < i ==> IsHex(hex[k])
      invariant Filled(bytes[..], hex, i)
      invariant (hasUpper <==> SomeUpper(hex, i)) && (hasLower <==> SomeLower(hex, i))
    {
      var ch := hex[i];
      if !IsHex(ch) {
        bad := Some(i);
        return;
      }
      hasUpper, hasLower := hasUpper || IsUpper(ch), hasLower || IsLower(ch);
      FilledStep(bytes[..], hex, i);
      // The low nibble is still zero, so or-ing a nibble in is adding it.
      ghost var before := bytes[..];
      bytes[i / 2] := if i % 2 == 0 then HexValue(ch) * 16 else bytes[i / 2] + HexValue(ch);
      assert bytes[..] == before[i / 2 := bytes[i / 2]];
      i := i + 1;
    }
  }

  /** `validate_address`: both what it accepts and why it refuses. */
  method ValidateAddress(keccak: string -> Digest, input: string) returns (r: Result<Address, AddressError>)
    ensures r.Ok? ==> Accepts(keccak, input, r.value)
    ensures r.Err? ==> forall a: Address :: !Accepts(keccak, input, a)
    ensures var hex := StripPrefix(input);
      match r
      case Ok(_) => true
      case Err(InvalidLength(n)) => n == ByteLength(hex) != ADDRESS_HEX_LENGTH
      case Err(InvalidCharacter(c)) => exists i :: 0 <= i < |hex| && hex[i] == c && !IsHex(c) && AllHex(hex[..i])
      case Err(InvalidChecksum) => AllHex(hex) && MixedCase(hex)
  {
    var hex := StripPrefix(input);
    if ByteLength(hex) != ADDRESS_HEX_LENGTH {
      NotSpelled(hex);
      return Err(InvalidLength(ByteLength(hex)));
    }
    AtLeastOneByteEach(hex);
    var bytes, bad, hasUpper, hasLower := ParseHex(hex);
    if bad.Some? {
      assert forall a: Address :: !Spells(hex, a);
      return Err(InvalidCharacter(hex[bad.value]));
    }
    HexIsAscii(hex);
    var address: Address := bytes[..];
    var checksum := ToChecksumHex(keccak, address);
    if hasUpper && hasLower && hex != checksum {
      forall a: Address | Spells(hex, a) ensures a == address {
        OneSpelling(hex, a, address);
      }
      return Err(InvalidChecksum);
    }
    r := Ok(address);
  }

  lemma {:induction false} AtLeastOneByteEach(s: string)
    ensures |s| <= ByteLength(s)
  {
    if s != "" {
      AtLeastOneByteEach(s[..|s| - 1]);
    }
  }

  lemma NotSpelled(hex: string)
    requires ByteLength(hex) != ADDRESS_HEX_LENGTH
    ensures forall a: Address :: !Spells(hex, a)
  {
    if AllHex(hex) {
      HexIsAscii(hex);
    }
  }

  // --- what the text determines ------------------------------------------------------------------------------------

  /** A text spells at most one address. */
  lemma OneSpelling(hex: string, a: Address, b: Address)
    requires Spells(hex, a) && Spells(hex, b)
    ensures a == b
  {
    forall k | 0 <= k < ADDRESS_LENGTH ensures a[k] == b[k] {
      assert Nibble(a, 2 * k) == Nibble(b, 2 * k) && Nibble(a, 2 * k + 1) == Nibble(b, 2 * k + 1);
    }
  }

  /** Checksummed, lowercase and uppercase text, with or without a prefix, all give the address back. */
  lemma PrintedIsAccepted(keccak: string -> Digest, a: Address, prefix: string)
    requires prefix in {"", "0x", "0X"}
    ensures Accepts(keccak, prefix + ChecksumHex(keccak, a), a)
    ensures Accepts(keccak, prefix + LowerHex(a), a)
    ensures Accepts(keccak, prefix + UpperHex(a), a)
  {
    ChecksumSpells(keccak, a);
    LowerSpells(a);
    UpperSpells(a);
    Unprefixed(prefix, ChecksumHex(keccak, a));
    Unprefixed(prefix, LowerHex(a));
    Unprefixed(prefix, UpperHex(a));
  }

  lemma LowerSpells(a: Address)
    ensures Spells(LowerHex(a), a) && forall i :: 0 <= i < ADDRESS_HEX_LENGTH ==> !IsUpper(LowerHex(a)[i])
  {
    forall i | 0 <= i < ADDRESS_HEX_LENGTH
      ensures HexValue(LowerHex(a)[i]) == Nibble(a, i) && !IsUpper(LowerHex(a)[i])
    {
      assert Nibble(a, i) < 16;
    }
  }

  lemma UpperSpells(a: Address)
    ensures Spells(UpperHex(a), a) && forall i :: 0 <= i < ADDRESS_HEX_LENGTH ==> !IsLower(UpperHex(a)[i])
  {
    forall i | 0 <= i < ADDRESS_HEX_LENGTH
      ensures HexValue(UpperHex(a)[i]) == Nibble(a, i) && !IsLower(UpperHex(a)[i])
    {
      assert Nibble(a, i) < 16;
    }
  }

  lemma ChecksumSpells(keccak: string -> Digest, a: Address)
    ensures Spells(ChecksumHex(keccak, a), a)
  {
    forall i | 0 <= i < ADDRESS_HEX_LENGTH ensures HexValue(ChecksumHex(keccak, a)[i]) == Nibble(a, i) {
      assert Nibble(a, i) < 16;
    }
  }

  /** Either prefix is taken off whatever follows it, and nothing else is. */
  lemma StripsPrefix(prefix: string, rest: string)
    requires prefix in {"", "0x", "0X"}
    requires prefix == "" ==> !(|rest| >= 2 && rest[0] == '0' && (rest[1] == 'x' || rest[1] == 'X'))
    ensures StripPrefix(prefix + rest) == rest
  {
    var input := prefix + rest;
    if prefix == "" {
      assert input == rest;
    } else {
      assert input[..2] == prefix && input[2..] == rest;
    }
  }

  lemma Unprefixed(prefix: string, hex: string)
    requires prefix in {"", "0x", "0X"} && AllHex(hex) && |hex| == ADDRESS_HEX_LENGTH
    ensures StripPrefix(prefix + hex) == hex
  {
    assert IsHex(hex[1]);
    StripsPrefix(prefix, hex);
  }

  /** Which letters are capitals: those whose place has its top bit set in the hash of the lowercase text. */
  lemma ChecksumCase(keccak: string -> Digest, a: Address, i: nat)
    requires i < 20
    ensures var (s, byte) := (ChecksumHex(keccak, a), keccak(LowerHex(a))[i]);
      && HexValue(s[2 * i]) == a[i] / 16 && HexValue(s[2 * i + 1]) == a[i] % 16
      && (IsUpper(s[2 * i]) <==> a[i] >= 160 && byte >= 128)
      && (IsUpper(s[2 * i + 1]) <==> a[i] % 16 >= 10 && byte % 16 >= 8)
  {
    ChecksumSpells(keccak, a);
    LowerSpells(a);
    var lower := LowerHex(a);
    assert (2 * i) / 2 == i && (2 * i + 1) / 2 == i && (2 * i) % 2 == 0 && (2 * i + 1) % 2 == 1;
    LetterIff(lower[2 * i]);
    LetterIff(lower[2 * i + 1]);
  }

  lemma LetterIff(c: char)
    requires IsHex(c) && !IsUpper(c)
    ensures IsUpper(Upper(c)) <==> HexValue(c) >= 10
  {
  }

  /** Accepted text lowercases to the address's hex; accepted mixed-case text is its checksum form exactly. */
  lemma AcceptedText(keccak: string -> Digest, input: string, a: Address)
    requires Accepts(keccak, input, a)
    ensures var hex := StripPrefix(input);
      && |hex| == ADDRESS_HEX_LENGTH
      && seq(|hex|, i requires 0 <= i < |hex| => Lower(hex[i])) == LowerHex(a)
      && (MixedCase(hex) ==> hex == ChecksumHex(keccak, a))
  {
    var hex := StripPrefix(input);
    forall i | 0 <= i < |hex| ensures Lower(hex[i]) == LowerHex(a)[i] {
      SameValueSameDigit(Lower(hex[i]), LowerHex(a)[i]);
    }
  }

  lemma SameValueSameDigit(c: char, d: char)
    requires IsHex(c) && IsHex(d) && !IsUpper(c) && !IsUpper(d) && HexValue(c) == HexValue(d)
    ensures c == d
  {
  }
}
