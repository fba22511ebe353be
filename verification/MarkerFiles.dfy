/** Names and contents of the files in a replay directory
    (crates/keylix-verifier/src/replay.rs, lines 107 to 141 and 172 to 204). */
module MarkerFiles {
  import opened Text
  import opened ReplayLog

  const PENDING_PREFIX := ".pending-"
  const LOCK_NAME := ".replay-store.lock"

  predicate IsHex(c: char) { IsDigit(c) || 'a' <= c <= 'f' }

  predicate AllHex(s: string) {
    forall i :: 0 <= i < |s| ==> IsHex(s[i])
  }

  function HexDigit(v: nat): (c: char)
    requires v < 16
    ensures IsHex(c) && Nibble(c) == v
  {
    if v < 10 then '0' + v as char else 'a' + (v - 10) as char
  }

  function Nibble(c: char): (v: nat)
    requires IsHex(c)
    ensures v < 16
  {
    if IsDigit(c) then (c - '0') as nat else (c - 'a') as nat + 10
  }

  /** Two lower-case hexadecimal digits for each byte. */
  function Hex(bytes: seq<Byte>): (s: string)
    ensures |s| == 2 * |bytes| && AllHex(s)
  {
    if bytes == [] then ""
    else
      var b := bytes[|bytes| - 1];
      Hex(bytes[..|bytes| - 1]) + [HexDigit(b / 16), HexDigit(b % 16)]
  }

  function Unhex(s: string, n: nat): (bytes: seq<Byte>)
    requires |s| == 2 * n && AllHex(s)
    ensures |bytes| == n
    decreases n
  {
    if n == 0 then [] else Unhex(s[..2 * n - 2], n - 1) + [DigitsByte(s[2 * n - 2], s[2 * n - 1])]
  }

  function DigitsByte(c: char, d: char): Byte
    requires IsHex(c) && IsHex(d)
  {
    16 * Nibble(c) + Nibble(d)
  }

  lemma ByteDigits(b: Byte)
    ensures DigitsByte(HexDigit(b / 16), HexDigit(b % 16)) == b
  {
  }

  lemma DigitsOfByte(c: char, d: char)
    requires IsHex(c) && IsHex(d)
    ensures HexDigit(DigitsByte(c, d) / 16) == c && HexDigit(DigitsByte(c, d) % 16) == d
  {
  }

  lemma HexSnoc(bytes: seq<Byte>, b: Byte)
    ensures Hex(bytes + [b]) == Hex(bytes) + [HexDigit(b / 16), HexDigit(b % 16)]
  {
  }

  lemma {:induction false} HexRoundTrip(bytes: seq<Byte>)
    ensures Unhex(Hex(bytes), |bytes|) == bytes
  {
    hide DigitsByte, HexDigit, Nibble;
    if bytes != [] {
      var n := |bytes| - 1;
      HexRoundTrip(bytes[..n]);
      ByteDigits(bytes[n]);
      assert Hex(bytes)[..2 * n] == Hex(bytes[..n]);
      assert bytes == bytes[..n] + [bytes[n]];
    }
  }

  lemma {:induction false} UnhexRoundTrip(s: string, n: nat)
    requires |s| == 2 * n && AllHex(s)
    ensures Hex(Unhex(s, n)) == s
  {
    hide DigitsByte, HexDigit, Nibble;
    if n > 0 {
      var m := 2 * n - 2;
      UnhexRoundTrip(s[..m], n - 1);
      DigitsOfByte(s[m], s[m + 1]);
      HexSnoc(Unhex(s[..m], n - 1), DigitsByte(s[m], s[m + 1]));
      assert s == s[..m] + [s[m], s[m + 1]];
    }
  }

  predicate IsMarkerName(name: string) { |name| == 64 && AllHex(name) }

  /** `is_pending_name`. */
  predicate IsPendingName(name: string) {
    HasPrefix(name, PENDING_PREFIX) && |name| == |PENDING_PREFIX| + 32 && AllHex(name[|PENDING_PREFIX|..])
  }

  function NameFor(key: ReplayKey): (name: string)
    ensures IsMarkerName(name)
  {
    Hex(key)
  }

  function KeyFor(name: string): ReplayKey
    requires IsMarkerName(name)
  {
    Unhex(name, 32)
  }

  /** Marker names and replay keys correspond one to one. */
  lemma NamesAreKeys(key: ReplayKey, name: string)
    requires IsMarkerName(name)
    ensures NameFor(KeyFor(name)) == name
    ensures NameFor(key) == name <==> key == KeyFor(name)
  {
    HexRoundTrip(key);
    UnhexRoundTrip(name, 32);
  }

  function PendingName(random: seq<Byte>): (name: string)
    requires |random| == 16
    ensures IsPendingName(name)
  {
    var name := PENDING_PREFIX + Hex(random);
    assert name[|PENDING_PREFIX|..] == Hex(random);
    name
  }

  /** Marker, pending and lock names never coincide. */
  lemma NamesDisjoint(name: string)
    ensures !(IsMarkerName(name) && IsPendingName(name))
    ensures !IsMarkerName(LOCK_NAME) && !IsPendingName(LOCK_NAME)
  {
    if IsPendingName(name) {
      assert name[0] == PENDING_PREFIX[0];
    }
    assert LOCK_NAME[1] == 'r' && PENDING_PREFIX[1] == 'p';
  }

  lemma HexTable(v: nat)
    requires v < 16
    ensures HexDigit(v) == "0123456789abcdef"[v]
  {
    assert forall k :: 0 <= k < 10 ==> "0123456789abcdef"[k] == '0' + k as char;
    assert forall k :: 10 <= k < 16 ==> "0123456789abcdef"[k] == 'a' + (k - 10) as char;
  }

  /** Exactly the names that the store gives to pending files. */
  lemma PendingNames(name: string)
    ensures IsPendingName(name) <==> exists r: seq<Byte> :: |r| == 16 && name == ".pending-" + Hex(r)
  {
    if IsPendingName(name) {
      var digits := name[9..];
      UnhexRoundTrip(digits, 16);
      assert name == name[..9] + digits;
      assert name == ".pending-" + Hex(Unhex(digits, 16));
    }
    forall r: seq<Byte> | |r| == 16 && name == ".pending-" + Hex(r) ensures IsPendingName(name) {
      assert name[..9] == ".pending-" && name[9..] == Hex(r);
    }
  }

  /** `name_for`: pushes two digits for each byte. */
  method BuildName(bytes: seq<Byte>) returns (name: string)
    ensures name == Hex(bytes)
  {
    var table := "0123456789abcdef";
    name := "";
    for i := 0 to |bytes|
      invariant name == Hex(bytes[..i])
    {
      assert bytes[..i + 1][..i] == bytes[..i];
      HexTable(bytes[i] / 16);
      HexTable(bytes[i] % 16);
      name := name + [table[bytes[i] / 16]] + [table[bytes[i] % 16]];
    }
    assert bytes[..|bytes|] == bytes;
  }

  // ---- Contents ----

  /** What `writeln!` puts into a marker: the expiry in decimal and a newline. */
  function MarkerText(expiry: I64): (text: string)
    ensures |text| >= 2
  {
    (if expiry < 0 then "-" + Decimal(-(expiry as int)) else Decimal(expiry)) + "\n"
  }

  /** `read_expiry` on the bytes of a file. */
  function ParseExpiry(text: string): (r: Option<I64>) {
    if text == "" || |text| > 32 then None
    else
      var trimmed := if text[|text| - 1] == '\n' then text[..|text| - 1] else text;
      if trimmed == "" || !AllDigits(trimmed) || DecimalValue(trimmed) > I64_MAX then None
      else Some(DecimalValue(trimmed))
  }

  /** What can be read: 1 to 32 bytes of decimal digits, with or without a newline at the end, up to the largest time.
      */
  lemma ReadsExactly(text: string, expiry: I64)
    ensures ParseExpiry(text) == Some(expiry) <==>
              && 1 <= |text| <= 32
              && exists digits: string :: digits != "" && AllDigits(digits) && DecimalValue(digits) == expiry as int
                                          && (text == digits || text == digits + "\n")
  {
    hide DecimalValue;
    if ParseExpiry(text) == Some(expiry) {
      var digits := if text[|text| - 1] == '\n' then text[..|text| - 1] else text;
      assert text == digits || text == digits + "\n";
      assert digits != "" && AllDigits(digits) && DecimalValue(digits) == expiry as int;
    }
    if digits: string :| digits != "" && AllDigits(digits) && DecimalValue(digits) == expiry as int
                         && (text == digits || text == digits + "\n") {
      if text == digits + "\n" {
        assert text[..|text| - 1] == digits;
      }
    }
  }

  /** A complete marker reads back as its expiry exactly when the expiry is not negative. */
  lemma MarkerReads(expiry: I64)
    ensures ParseExpiry(MarkerText(expiry)) == if expiry >= 0 then Some(expiry) else None
    ensures expiry >= 0 ==> MarkerText(expiry) == Decimal(expiry) + "\n"
  {
    var n: nat := if expiry < 0 then -(expiry as int) else expiry;
    var digits := if expiry < 0 then "-" + Decimal(n) else Decimal(n);
    I64Digits(n);
    DecimalRoundTrip(n);
    var text := MarkerText(expiry);
    assert text[..|text| - 1] == digits;
    if expiry < 0 {
      assert digits[0] == '-';
      assert !AllDigits(digits);
    }
  }

  /** Different expiries leave different markers. */
  lemma MarkerTextInjective(a: I64, b: I64)
    requires MarkerText(a) == MarkerText(b)
    ensures a == b
  {
    MarkerReads(a);
    MarkerReads(b);
    if a < 0 && b < 0 {
      DecimalRoundTrip(-(a as int));
      DecimalRoundTrip(-(b as int));
      var text := MarkerText(a);
      assert text[1..|text| - 1] == Decimal(-(a as int)) && text[1..|text| - 1] == Decimal(-(b as int));
    }
  }
}
