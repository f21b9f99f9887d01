/**
 The NIP-5A host-label codec: 32-byte keys as 50 base36 digits, and the three
 label forms (npub, v<50 digits>, <50 digits><d>) that a DNS label can carry.
 */
module Label {
  import opened Outcome
  import opened Text
  import opened Numerals

  datatype SiteType = Root | Named | Snapshot

  datatype Decoded = NotASite | Site(siteType: SiteType, hexId: string, d: string)

  datatype CodecError = WantHex64 | ExceedsFiftyDigits | WantBase36Fifty | ExceedsThirtyTwoBytes

  /** What the nip19 library returns: a prefix and a value that may not be a string. */
  datatype Bech32 = Bech32(prefix: string, value: Option<string>)

  /** The nip19 library, as the two functions the gateway calls. */
  datatype Nip19 = Nip19(decode: string -> Option<Bech32>, encodePublicKey: string -> Option<string>)

  const LABEL_MAX_LEN: nat := 63
  const KEY_BITS_BOUND: nat := Pow(2, 256)

  predicate IsKeyHex(s: string) { |s| == 64 && All(s, IsHex) }
  predicate IsLowerKeyHex(s: string) { |s| == 64 && All(s, IsLowerHex) }
  predicate IsBase36Fifty(s: string) { |s| == 50 && All(s, IsBase36) }

  predicate IsDChar(c: char) { IsBase36(c) || c == '-' }

  /** reNamed, without the trailing-hyphen test. */
  predicate MatchesNamed(lbl: string) {
    51 <= |lbl| <= 63 && All(lbl[..50], IsBase36) && All(lbl[50..], IsDChar)
  }

  predicate IsValidD(d: string) {
    1 <= |d| <= 13 && All(d, IsDChar) && !HasSuffix(d, "-")
  }

  /** The digit a character stands for, in any base up to 36 and either case. */
  function DigitOf(c: char): nat {
    if '0' <= c <= '9' then c as nat - '0' as nat
    else if 'a' <= c <= 'z' then c as nat - 'a' as nat + 10
    else if 'A' <= c <= 'Z' then c as nat - 'A' as nat + 10
    else 0
  }

  /** The lower-case character of a digit. */
  function CharOf(d: nat): char {
    if d < 10 then (d + '0' as nat) as char
    else if d < 36 then (d - 10 + 'a' as nat) as char
    else '?'
  }

  function DigitsOf(s: string): seq<nat> { seq(|s|, i requires 0 <= i < |s| => DigitOf(s[i])) }

  function CharsOf(ds: seq<nat>): string { seq(|ds|, i requires 0 <= i < |ds| => CharOf(ds[i])) }

  /** The big-endian number that a hexadecimal key spells. */
  function KeyValue(hex: string): nat { Value(DigitsOf(hex), 16) }

  function Base36Encode32(hex32: string): Result<string, CodecError> {
    if !IsKeyHex(hex32) then Err(WantHex64)
    else
      var s := CharsOf(Shortest(KeyValue(hex32), 36));
      if |s| > 50 then Err(ExceedsFiftyDigits)
      else Ok(Repeat('0', 50 - |s|) + s)
  }

  function Base36Decode50(s: string): Result<string, CodecError> {
    if !IsBase36Fifty(s) then Err(WantBase36Fifty)
    else
      var n := Value(DigitsOf(s), 36);
      if n >= KEY_BITS_BOUND then Err(ExceedsThirtyTwoBytes)
      else Ok(CharsOf(Fixed(n, 16, 64)))
  }

  function NamedLabel(pubkeyHex: string, d: string): Result<string, CodecError> {
    match Base36Encode32(pubkeyHex)
    case Err(e) => Err(e)
    case Ok(b36) => Ok(b36 + d)
  }

  function SnapshotLabel(eventIdHex: string): Result<string, CodecError> {
    match Base36Encode32(eventIdHex)
    case Err(e) => Err(e)
    case Ok(b36) => Ok("v" + b36)
  }

  function DecodeLabel(lbl: string, nip19: Nip19): Decoded {
    if HasPrefix(lbl, "npub1") then
      match nip19.decode(lbl)
      case None => NotASite
      case Some(b) =>
        if b.prefix != "npub" || b.value.None? || |b.value.value| != 64 then NotASite
        else Site(Root, b.value.value, "")
    else if |lbl| == 51 && lbl[0] == 'v' && IsBase36Fifty(lbl[1..]) then
      match Base36Decode50(lbl[1..])
      case Err(_) => NotASite
      case Ok(id) => Site(Snapshot, id, "")
    else if MatchesNamed(lbl) && !HasSuffix(lbl, "-") then
      match Base36Decode50(lbl[..50])
      case Err(_) => NotASite
      case Ok(pk) => Site(Named, pk, lbl[50..])
    else NotASite
  }

  /** The three rules, each read alone and in no order. */
  predicate AcceptedAsNpub(lbl: string, nip19: Nip19) {
    HasPrefix(lbl, "npub1") &&
    var r := nip19.decode(lbl);
    r.Some? && r.value.prefix == "npub" && r.value.value.Some? && |r.value.value.value| == 64
  }

  predicate AcceptedAsSnapshot(lbl: string) {
    |lbl| == 51 && lbl[0] == 'v' && Base36Decode50(lbl[1..]).Ok?
  }

  predicate AcceptedAsNamed(lbl: string) {
    MatchesNamed(lbl) && !HasSuffix(lbl, "-") && Base36Decode50(lbl[..50]).Ok?
  }

  // ---- Arithmetic of the key space ----

  lemma ThirtySixToThe49()
    ensures Pow(36, 49) == 18147739541668636280463618532168272792698436402026524209529776843597142818816
  {
    assert Pow(36, 7) == 78364164096;
    PowAdd(36, 7, 7);
    assert Pow(36, 14) == 6140942214464815497216;
    PowAdd(36, 14, 14);
    PowAdd(36, 28, 14);
    PowAdd(36, 42, 7);
  }

  lemma TwoToThe256()
    ensures Pow(2, 256) == Pow(16, 64) == 115792089237316195423570985008687907853269984665640564039457584007913129639936
  {
    var x := 0x1_00000000;
    assert Pow(2, 8) == 0x100 && Pow(16, 8) == x;
    PowAdd(2, 16, 16);
    PowAdd(2, 32, 32);
    PowAdd(16, 8, 8);
    PowAdd(2, 64, 64);
    PowAdd(16, 16, 16);
    assert Pow(2, 128) == Pow(16, 32) == 340282366920938463463374607431768211456;
    PowAdd(2, 128, 128);
    PowAdd(16, 32, 32);
  }

  /** The bound the codec rests on: 36^49 < 2^256 = 16^64 < 7 * 36^49. */
  lemma KeySpace()
    ensures KEY_BITS_BOUND == Pow(16, 64)
    ensures KEY_BITS_BOUND < 7 * Pow(36, 49)
    ensures KEY_BITS_BOUND < Pow(36, 50)
    ensures Pow(36, 49) < KEY_BITS_BOUND
  {
    TwoToThe256();
    ThirtySixToThe49();
  }

  // ---- Characters and digits ----

  lemma CharsDigits(ds: seq<nat>, base: nat)
    requires base <= 36 && AreDigits(ds, base)
    ensures DigitsOf(CharsOf(ds)) == ds
    ensures All(CharsOf(ds), IsBase36)
    ensures base == 16 ==> All(CharsOf(ds), IsLowerHex)
  {}

  lemma DigitsChars(s: string)
    requires All(s, IsBase36) || All(s, IsHex)
    ensures CharsOf(DigitsOf(s)) == Lower(s)
    ensures AreDigits(DigitsOf(s), 36)
    ensures All(s, IsHex) ==> AreDigits(DigitsOf(s), 16)
    ensures All(s, IsBase36) ==> Lower(s) == s
  {}

  lemma KeyValueBelow(hex: string)
    requires IsKeyHex(hex)
    ensures KeyValue(hex) < KEY_BITS_BOUND
  {
    ValueBelow(DigitsOf(hex), 16);
    KeySpace();
  }

  // ---- The fixed-width codec ----

  /** The "exceeds 50 digits" branch is dead, and the padding yields the 50-digit numeral. */
  lemma EncodeIsFixed(hex: string)
    requires IsKeyHex(hex)
    ensures Base36Encode32(hex) == Ok(CharsOf(Fixed(KeyValue(hex), 36, 50)))
  {
    var n := KeyValue(hex);
    KeyValueBelow(hex);
    KeySpace();
    ShortestFits(n, 36, 50);
    PaddedIsFixed(n, 36, 50);
    var short := Shortest(n, 36);
    assert CharsOf(Zeros(50 - |short|) + short) == Repeat('0', 50 - |short|) + CharsOf(short);
  }

  /** Padding happens exactly for the keys below 36^49, which do exist. */
  lemma PaddedExactlyBelow(hex: string)
    requires IsKeyHex(hex)
    ensures |Shortest(KeyValue(hex), 36)| < 50 <==> KeyValue(hex) < Pow(36, 49)
    ensures Base36Encode32(Repeat('0', 64)) == Ok(Repeat('0', 50))
  {
    ShortestFits(KeyValue(hex), 36, 49);
    var zero := Repeat('0', 64);
    EncodeIsFixed(zero);
    assert DigitsOf(zero) == Zeros(64);
    FixedOfZero(16, 64);
    PowPositive(16, 64);
    ValueOfFixed(0, 16, 64);
    FixedOfZero(36, 50);
    assert CharsOf(Zeros(50)) == Repeat('0', 50);
  }

  lemma DecodeInvertsEncode(hex: string)
    requires IsKeyHex(hex)
    ensures Base36Encode32(hex).Ok?
    ensures IsBase36Fifty(Base36Encode32(hex).value)
    ensures Base36Decode50(Base36Encode32(hex).value) == Ok(Lower(hex))
  {
    var n := KeyValue(hex);
    EncodeIsFixed(hex);
    KeyValueBelow(hex);
    KeySpace();
    FixedShape(n, 36, 50);
    CharsDigits(Fixed(n, 36, 50), 36);
    ValueOfFixed(n, 36, 50);
    DigitsChars(hex);
    FixedOfValue(DigitsOf(hex), 16);
  }

  lemma EncodeInvertsDecode(s: string)
    requires Base36Decode50(s).Ok?
    ensures IsLowerKeyHex(Base36Decode50(s).value)
    ensures Base36Encode32(Base36Decode50(s).value) == Ok(s)
  {
    var n := Value(DigitsOf(s), 36);
    var hex := Base36Decode50(s).value;
    KeySpace();
    FixedShape(n, 16, 64);
    CharsDigits(Fixed(n, 16, 64), 16);
    ValueOfFixed(n, 16, 64);
    EncodeIsFixed(hex);
    DigitsChars(s);
    FixedOfValue(DigitsOf(s), 36);
  }

  /** The first digit of a decodable numeral is at most 6, so never a letter. */
  lemma FirstDigitAtMostSix(s: string)
    requires Base36Decode50(s).Ok?
    ensures '0' <= s[0] <= '6'
  {
    var ds := DigitsOf(s);
    LeadingDigit(ds, 36);
    KeySpace();
    if ds[0] >= 7 { MulMonotone(7, ds[0], Pow(36, 49)); }
  }

  // ---- The label forms ----

  /** No label is accepted by two of the rules, and the order of the rules in DecodeLabel never matters. */
  lemma RulesAreDisjoint(lbl: string, nip19: Nip19)
    ensures !(AcceptedAsNpub(lbl, nip19) && AcceptedAsSnapshot(lbl))
    ensures !(AcceptedAsNpub(lbl, nip19) && AcceptedAsNamed(lbl))
    ensures !(AcceptedAsSnapshot(lbl) && AcceptedAsNamed(lbl))
    ensures AcceptedAsNpub(lbl, nip19) <==>
            DecodeLabel(lbl, nip19).Site? && DecodeLabel(lbl, nip19).siteType == Root
    ensures AcceptedAsSnapshot(lbl) <==>
            DecodeLabel(lbl, nip19).Site? && DecodeLabel(lbl, nip19).siteType == Snapshot
    ensures AcceptedAsNamed(lbl) <==>
            DecodeLabel(lbl, nip19).Site? && DecodeLabel(lbl, nip19).siteType == Named
  {
    if AcceptedAsNamed(lbl) { FirstDigitAtMostSix(lbl[..50]); }
    if HasPrefix(lbl, "npub1") { assert lbl[0] == "npub1"[0] == 'n'; }
  }

  /** A named label decodes back exactly when its d is valid; NamedLabel itself does not check d. */
  lemma DecodeInvertsNamed(pubkey: string, d: string, nip19: Nip19)
    requires IsKeyHex(pubkey)
    ensures NamedLabel(pubkey, d).Ok?
    ensures DecodeLabel(NamedLabel(pubkey, d).value, nip19) == Site(Named, Lower(pubkey), d) <==> IsValidD(d)
    ensures IsValidD(d) ==> 51 <= |NamedLabel(pubkey, d).value| <= LABEL_MAX_LEN
  {
    DecodeInvertsEncode(pubkey);
    var b36 := Base36Encode32(pubkey).value;
    var lbl := b36 + d;
    assert lbl[..50] == b36 && lbl[50..] == d;
    if IsValidD(d) {
      assert AcceptedAsNamed(lbl);
      RulesAreDisjoint(lbl, nip19);
    }
  }

  lemma DecodeInvertsSnapshot(eventId: string, nip19: Nip19)
    requires IsKeyHex(eventId)
    ensures SnapshotLabel(eventId).Ok?
    ensures DecodeLabel(SnapshotLabel(eventId).value, nip19) == Site(Snapshot, Lower(eventId), "")
  {
    DecodeInvertsEncode(eventId);
    var b36 := Base36Encode32(eventId).value;
    RulesAreDisjoint("v" + b36, nip19);
  }

  /** Every accepted label is the canonical label of what it decodes to; npub labels are nip19's. */
  lemma AcceptedLabelsAreCanonical(lbl: string, nip19: Nip19)
    requires DecodeLabel(lbl, nip19).Site?
    ensures var site := DecodeLabel(lbl, nip19);
            match site.siteType
            case Root => HasPrefix(lbl, "npub1") && |site.hexId| == 64 && site.d == ""
            case Snapshot => IsLowerKeyHex(site.hexId) && site.d == "" && SnapshotLabel(site.hexId) == Ok(lbl)
            case Named => IsLowerKeyHex(site.hexId) && IsValidD(site.d) && NamedLabel(site.hexId, site.d) == Ok(lbl)
  {
    var site := DecodeLabel(lbl, nip19);
    match site.siteType
    case Root =>
    case Snapshot =>
      EncodeInvertsDecode(lbl[1..]);
      assert lbl == "v" + lbl[1..];
    case Named =>
      EncodeInvertsDecode(lbl[..50]);
      assert lbl == lbl[..50] + lbl[50..];
  }

  /** Two labels of the same site are the same label, unless nip19 has two spellings of one npub. */
  lemma LabelsAreInjective(a: string, b: string, nip19: Nip19)
    requires DecodeLabel(a, nip19).Site? && DecodeLabel(a, nip19) == DecodeLabel(b, nip19)
    requires DecodeLabel(a, nip19).siteType != Root
    ensures a == b
  {
    AcceptedLabelsAreCanonical(a, nip19);
    AcceptedLabelsAreCanonical(b, nip19);
  }
}
