/** Message references: 64-bit ids written as decimal strings and read back. */
module Reference {

  const ID_MAX: nat := 0xFFFF_FFFF_FFFF_FFFF
  const BUFFER_SIZE: nat := 20

  datatype Json = JsonString(s: string) | JsonBool(b: bool) | JsonNumber(x: real)

  type JsonObject = map<string, Json>

  datatype Ref = Ref(messageId: nat, channelId: nat, guildId: nat, failIfNotExists: bool)

  // ---------- Decimal strings ----------

  function Digit(d: nat): char
    requires d < 10
  {
    '0' + d as char
  }

  predicate IsDigit(c: char) {
    '0' <= c <= '9'
  }

  function DigitValue(c: char): (d: nat)
    requires IsDigit(c)
    ensures d < 10 && Digit(d) == c
  {
    (c - '0') as nat
  }

  /** What `%ju` prints. */
  function Decimal(n: nat): (s: string)
    ensures |s| >= 1
  {
    if n < 10 then [Digit(n)] else Decimal(n / 10) + [Digit(n % 10)]
  }

  function LeadingDigits(s: string): (k: nat)
    ensures k <= |s| && forall i :: 0 <= i < k ==> IsDigit(s[i])
    ensures k < |s| ==> !IsDigit(s[k])
  {
    if s == [] || !IsDigit(s[0]) then 0 else 1 + LeadingDigits(s[1..])
  }

  function Value(s: string): nat
    requires forall i :: 0 <= i < |s| ==> IsDigit(s[i])
  {
    if s == [] then 0 else Value(s[..|s| - 1]) * 10 + DigitValue(s[|s| - 1])
  }

  predicate IsSpace(c: char) {
    c == ' ' || 9 as char <= c <= 13 as char
  }

  function SkipSpace(s: string): string {
    if s != [] && IsSpace(s[0]) then SkipSpace(s[1..]) else s
  }

  /** `strtoull` in base 10: leading space, an optional sign, then digits; too large a number is cut
      to the largest one, and a minus sign negates the result modulo 2^64. */
  function ParseUnsigned(s: string): nat {
    var t := SkipSpace(s);
    var signed := t != [] && (t[0] == '-' || t[0] == '+');
    var digits := if signed then t[1..] else t;
    var v := Value(digits[..LeadingDigits(digits)]);
    if v > ID_MAX then ID_MAX
    else if signed && t[0] == '-' && v > 0 then ID_MAX + 1 - v
    else v
  }

  function PowerOfTen(k: nat): nat {
    if k == 0 then 1 else 10 * PowerOfTen(k - 1)
  }

  lemma {:induction false} DecimalIsDigits(n: nat)
    ensures forall i :: 0 <= i < |Decimal(n)| ==> IsDigit(Decimal(n)[i])
    ensures Value(Decimal(n)) == n
  {
    if n >= 10 {
      DecimalIsDigits(n / 10);
      assert Decimal(n)[..|Decimal(n)| - 1] == Decimal(n / 10);
    }
  }

  lemma {:induction false} DecimalLength(n: nat, k: nat)
    requires k > 0
    ensures |Decimal(n)| <= k <==> n < PowerOfTen(k)
  {
    if n < 10 {
      assert PowerOfTen(k) == 10 * PowerOfTen(k - 1);
      PowerIsPositive(k - 1);
    } else if k == 1 {
      assert PowerOfTen(1) == 10 * PowerOfTen(0);
    } else {
      DecimalLength(n / 10, k - 1);
      assert PowerOfTen(k) == 10 * PowerOfTen(k - 1);
    }
  }

  lemma {:induction false} PowerIsPositive(k: nat)
    ensures PowerOfTen(k) >= 1
  {
    if k > 0 { PowerIsPositive(k - 1); }
  }

  lemma {:induction false} AllDigits(s: string)
    requires forall i :: 0 <= i < |s| ==> IsDigit(s[i])
    ensures LeadingDigits(s) == |s|
  {
    if s != [] { AllDigits(s[1..]); }
  }

  /** The digits by their characters, most significant first, without leading zeros. */
  lemma {:induction false} DecimalIsWritten(n: nat)
    ensures n < 10 ==> Decimal(n) == ["0123456789"[n]]
    ensures n >= 10 ==> Decimal(n)[0] != '0' && Decimal(n) == Decimal(n / 10) + ["0123456789"[n % 10]]
  {
    if n >= 10 {
      DecimalIsWritten(n / 10);
      assert Decimal(n)[0] == Decimal(n / 10)[0];
    }
  }

  lemma {:induction false} DigitsEnd(s: string, rest: string)
    requires forall i :: 0 <= i < |s| ==> IsDigit(s[i])
    requires rest == [] || !IsDigit(rest[0])
    ensures LeadingDigits(s + rest) == |s|
  {
    if s == [] {
      assert s + rest == rest;
    } else {
      assert (s + rest)[1..] == s[1..] + rest;
      DigitsEnd(s[1..], rest);
    }
  }

  lemma DigitsAreRead(n: nat, rest: string)
    requires rest == [] || rest[0] < '0' || rest[0] > '9'
    ensures var t := Decimal(n) + rest;
      && IsDigit(t[0]) && SkipSpace(t) == t
      && Value(t[..LeadingDigits(t)]) == n
  {
    var s := Decimal(n);
    DecimalIsDigits(n);
    DigitsEnd(s, rest);
    assert (s + rest)[0] == s[0] && (s + rest)[..|s|] == s;
  }

  /** What reading does with more than digits: it stops at the first other character, and a number of more
      than 64 bits is read as the largest. */
  lemma PrintedIsRead(n: nat, rest: string)
    requires rest == [] || rest[0] < '0' || rest[0] > '9'
    ensures ParseUnsigned(Decimal(n) + rest) == if n < 0x1_0000_0000_0000_0000 then n else 0xFFFF_FFFF_FFFF_FFFF
  {
    DigitsAreRead(n, rest);
  }

  /** A plus sign makes no difference, and behind a minus sign a number is read as its negative modulo
      2^64. */
  lemma SignedIsRead(n: nat, rest: string)
    requires rest == [] || rest[0] < '0' || rest[0] > '9'
    requires 0 < n < 0x1_0000_0000_0000_0000
    ensures ParseUnsigned(['+'] + (Decimal(n) + rest)) == n
    ensures ParseUnsigned(['-'] + (Decimal(n) + rest)) == 0x1_0000_0000_0000_0000 - n
  {
    var t := Decimal(n) + rest;
    DigitsAreRead(n, rest);
    SignIsSkipped('+', t);
    SignIsSkipped('-', t);
  }

  lemma SignIsSkipped(sign: char, t: string)
    requires sign == '+' || sign == '-'
    ensures SkipSpace([sign] + t) == [sign] + t && ([sign] + t)[1..] == t
  {
  }

  /** Spaces in front make no difference. */
  lemma SpaceIsSkipped(space: char, t: string)
    requires space == ' ' || 9 as char <= space <= 13 as char
    ensures ParseUnsigned([space] + t) == ParseUnsigned(t)
  {
    assert ([space] + t)[1..] == t;
  }

  /** Printing an id and parsing it gives the id back, for every 64-bit id. */
  lemma DecimalRoundTrip(n: nat)
    requires n < 0x1_0000_0000_0000_0000
    ensures ParseUnsigned(Decimal(n)) == n
  {
    PrintedIsRead(n, []);
    assert Decimal(n) + [] == Decimal(n);
  }

  /** An id and its terminator fit the buffer exactly if it is below 10^19. */
  lemma FitsBufferIff(n: nat)
    ensures |Decimal(n)| + 1 <= 20 <==> n < 10_000_000_000_000_000_000
  {
    DecimalLength(n, 19);
    assert PowerOfTen(19) == 10_000_000_000_000_000_000 by {
      assert PowerOfTen(5) == 100_000;
      assert PowerOfTen(10) == 10_000_000_000;
      assert PowerOfTen(15) == 1_000_000_000_000_000;
    }
  }

  // ---------- Writing and reading a reference ----------

  predicate Fits(ref: Ref) {
    && ref.messageId < 10_000_000_000_000_000_000
    && ref.channelId < 10_000_000_000_000_000_000
    && ref.guildId < 10_000_000_000_000_000_000
  }

  /** `sprintf` of an unsigned number into a buffer, with its terminator. */
  method Print(tmp: array<char>, n: nat) returns (length: nat)
    requires |Decimal(n)| < tmp.Length
    modifies tmp
    ensures length == |Decimal(n)| && tmp[..length] == Decimal(n) && tmp[length] == '\0'
  {
    length := 1;
    var m := n;
    while m >= 10
      invariant |Decimal(n)| == length - 1 + |Decimal(m)|
    {
      m, length := m / 10, length + 1;
    }
    tmp[length] := '\0';
    m := n;
    var k := length;
    while m >= 10
      invariant 1 <= k <= length && k == |Decimal(m)| && tmp[length] == '\0'
      invariant Decimal(m) + tmp[k..length] == Decimal(n)
    {
      k := k - 1;
      tmp[k] := Digit(m % 10);
      assert tmp[k..length] == [Digit(m % 10)] + tmp[k + 1..length];
      assert Decimal(m) + tmp[k + 1..length] == Decimal(m / 10) + tmp[k..length];
      m := m / 10;
    }
    tmp[0] := Digit(m);
    assert tmp[..length] == Decimal(m) + tmp[1..length];
  }

  function WithId(o: JsonObject, key: string, id: nat): JsonObject {
    if id != 0 then o[key := JsonString(Decimal(id))] else o
  }

  function Written(ref: Ref): JsonObject {
    WithId(WithId(WithId(map[], "message_id", ref.messageId), "channel_id", ref.channelId), "guild_id", ref.guildId)
      ["fail_if_not_exists" := JsonBool(ref.failIfNotExists)]
  }

  method AddId(obj: JsonObject, tmp: array<char>, key: string, id: nat) returns (r: JsonObject)
    requires tmp.Length == BUFFER_SIZE && id < 10_000_000_000_000_000_000
    modifies tmp
    ensures r == WithId(obj, key, id)
  {
    r := obj;
    if id != 0 {
      FitsBufferIff(id);
      var length := Print(tmp, id);
      r := r[key := JsonString(tmp[..length])];
    }
  }

  /** `create_message_reference`, which prints every id through one buffer. */
  method CreateReference(ref: Ref) returns (obj: JsonObject)
    requires Fits(ref)
    ensures obj == Written(ref)
  {
    var tmp := new char[20];
    obj := AddId(map[], tmp, "message_id", ref.messageId);
    obj := AddId(obj, tmp, "channel_id", ref.channelId);
    obj := AddId(obj, tmp, "guild_id", ref.guildId);
    obj := obj["fail_if_not_exists" := JsonBool(ref.failIfNotExists)];
  }

  /** An id given as a string or as a number. */
  function GetLong(data: JsonObject, name: string, missing: nat): nat {
    if name !in data then missing
    else match data[name]
      case JsonNumber(x) => if 0.0 <= x then x.Floor else 0
      case JsonString(s) => ParseUnsigned(s)
      case JsonBool(_) => missing
  }

  function ReadReference(data: JsonObject): Ref {
    Ref(GetLong(data, "message_id", 0), GetLong(data, "channel_id", 0), GetLong(data, "guild_id", 0), false)
  }

  /** What a written reference holds: each id that is not zero as a decimal string, and the flag. */
  lemma WrittenHolds(ref: Ref)
    ensures var o := Written(ref);
      && o.Keys <= {"message_id", "channel_id", "guild_id", "fail_if_not_exists"}
      && HoldsId(o, "message_id", ref.messageId) && HoldsId(o, "channel_id", ref.channelId)
      && HoldsId(o, "guild_id", ref.guildId)
      && "fail_if_not_exists" in o && o["fail_if_not_exists"] == JsonBool(ref.failIfNotExists)
  {
    assert "message_id" != "channel_id" && "message_id"[0] != "guild_id"[0] && "channel_id"[0] != "guild_id"[0];
    assert "fail_if_not_exists"[0] !in {"message_id"[0], "channel_id"[0], "guild_id"[0]};
  }

  predicate HoldsId(o: JsonObject, key: string, id: nat) {
    if id == 0 then key !in o else key in o && o[key] == JsonString(Decimal(id))
  }

  /** An id may also be given as a number, whose fraction is cut off; what is missing or neither is the
      given default. */
  lemma LongIsRead(o: JsonObject, key: string, missing: nat)
    ensures key in o && o[key].JsonNumber? && o[key].x >= 0.0 ==>
      var id := GetLong(o, key, missing); id as real <= o[key].x < (id + 1) as real
    ensures key in o && o[key].JsonString? ==> GetLong(o, key, missing) == ParseUnsigned(o[key].s)
    ensures key !in o || o[key].JsonBool? ==> GetLong(o, key, missing) == missing
  {
  }

  lemma ReadBack(o: JsonObject, key: string, id: nat)
    requires key !in o && id < 0x1_0000_0000_0000_0000
    ensures GetLong(WithId(o, key, id), key, 0) == id
  {
    DecimalRoundTrip(id);
  }

  /** Reading a written reference gives the three ids back, zeros included; the flag is not read. */
  lemma ReferenceRoundTrip(ref: Ref)
    requires ref.messageId < 0x1_0000_0000_0000_0000 && ref.channelId < 0x1_0000_0000_0000_0000
    requires ref.guildId < 0x1_0000_0000_0000_0000
    ensures ReadReference(Written(ref)) == ref.(failIfNotExists := false)
  {
    var o1 := WithId(map[], "message_id", ref.messageId);
    var o2 := WithId(o1, "channel_id", ref.channelId);
    ReadBack(map[], "message_id", ref.messageId);
    assert "message_id" != "channel_id" && "message_id"[0] != "guild_id"[0] && "channel_id"[0] != "guild_id"[0];
    assert "fail_if_not_exists"[0] !in {"message_id"[0], "channel_id"[0], "guild_id"[0]};
    ReadBack(o1, "channel_id", ref.channelId);
    ReadBack(o2, "guild_id", ref.guildId);
  }
}
