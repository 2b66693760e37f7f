/** base64url with padding (section 5 of RFC 4648), as used for the stored ciphertext. */
module Base64 {
  import opened ByteTypes
  import opened Options

  type Sextet = x: int | 0 <= x < 64

  function Letter(n: Sextet): char {
    if n < 26 then ('A' as int + n) as char
    else if n < 52 then ('a' as int + (n - 26)) as char
    else if n < 62 then ('0' as int + (n - 52)) as char
    else if n == 62 then '-' else '_'
  }

  function Value(c: char): Option<Sextet> {
    if 'A' <= c <= 'Z' then Some(c as int - 'A' as int)
    else if 'a' <= c <= 'z' then Some(c as int - 'a' as int + 26)
    else if '0' <= c <= '9' then Some(c as int - '0' as int + 52)
    else if c == '-' then Some(62) else if c == '_' then Some(63) else None
  }

  function First(a: Byte): Sextet { a / 4 }
  function Second(a: Byte, b: Byte): Sextet { a % 4 * 16 + b / 16 }
  function Third(b: Byte, c: Byte): Sextet { b % 16 * 4 + c / 64 }
  function Fourth(c: Byte): Sextet { c % 64 }

  function ByteA(w: Sextet, x: Sextet): Byte { w * 4 + x / 16 }
  function ByteB(x: Sextet, y: Sextet): Byte { x % 16 * 16 + y / 4 }
  function ByteC(y: Sextet, z: Sextet): Byte { y % 4 * 64 + z }

  function Encode(b: Bytes): string {
    if b == [] then ""
    else if |b| == 1 then [Letter(First(b[0])), Letter(Second(b[0], 0)), '=', '=']
    else if |b| == 2 then [Letter(First(b[0])), Letter(Second(b[0], b[1])), Letter(Third(b[1], 0)), '=']
    else [Letter(First(b[0])), Letter(Second(b[0], b[1])), Letter(Third(b[1], b[2])), Letter(Fourth(b[2]))] + Encode(b[3..])
  }

  // The bits a padded group leaves over are not looked at.
  function Decode(s: string): Option<Bytes> {
    if s == "" then Some([])
    else if |s| < 4 || Value(s[0]).None? || Value(s[1]).None? then None
    else
      var (w, x) := (Value(s[0]).value, Value(s[1]).value);
      if s[2..] == "==" then Some([ByteA(w, x)])
      else if Value(s[2]).None? then None
      else
        var y := Value(s[2]).value;
        if s[3..] == "=" then Some([ByteA(w, x), ByteB(x, y)])
        else if Value(s[3]).None? then None
        else match Decode(s[4..])
          case None => None
          case Some(rest) => Some([ByteA(w, x), ByteB(x, y), ByteC(y, Value(s[3]).value)] + rest)
  }

  lemma ValueOfLetter(n: Sextet)
    ensures Value(Letter(n)) == Some(n)
  {
  }

  lemma GroupReads(a: Byte, b: Byte, c: Byte)
    ensures ByteA(First(a), Second(a, b)) == a
    ensures ByteB(Second(a, b), Third(b, c)) == b
    ensures ByteC(Third(b, c), Fourth(c)) == c
  {
  }

  /** Decoding undoes encoding, for every byte string. */
  lemma {:induction false} DecodeEncode(b: Bytes)
    ensures Decode(Encode(b)) == Some(b)
  {
    hide Letter, Value, First, Second, Third, Fourth, ByteA, ByteB, ByteC;
    if b != [] {
      var c1, c2 := if |b| > 1 then b[1] else 0, if |b| > 2 then b[2] else 0;
      GroupReads(b[0], c1, c2);
      ValueOfLetter(First(b[0]));
      ValueOfLetter(Second(b[0], c1));
      ValueOfLetter(Third(c1, c2));
      ValueOfLetter(Fourth(c2));
      if |b| == 1 {
        assert Encode(b)[2..] == "==";
        assert [b[0]] == b;
      } else if |b| == 2 {
        NotPadding(Third(c1, 0));
        assert Encode(b)[2..][0] != '=' && Encode(b)[3..] == "=";
        assert [b[0], b[1]] == b;
      } else {
        DecodeEncode(b[3..]);
        NotPadding(Third(c1, c2));
        NotPadding(Fourth(c2));
        WholeGroup(b);
      }
    }
  }

  lemma NotPadding(n: Sextet)
    ensures Letter(n) != '='
  {
  }

  lemma WholeGroup(b: Bytes)
    requires |b| >= 3
    requires var (w, x, y, z) := (First(b[0]), Second(b[0], b[1]), Third(b[1], b[2]), Fourth(b[2]));
             Value(Letter(w)) == Some(w) && Value(Letter(x)) == Some(x) && Value(Letter(y)) == Some(y) && Value(Letter(z)) == Some(z)
             && ByteA(w, x) == b[0] && ByteB(x, y) == b[1] && ByteC(y, z) == b[2]
             && Letter(y) != '=' && Letter(z) != '='
    requires Decode(Encode(b[3..])) == Some(b[3..])
    ensures Decode(Encode(b)) == Some(b)
  {
    hide Letter, Value, First, Second, Third, Fourth, ByteA, ByteB, ByteC;
    var s := Encode(b);
    assert s[4..] == Encode(b[3..]);
    assert s[2..][0] == s[2] && s[3..][0] == s[3];
    assert [b[0], b[1], b[2]] + b[3..] == b;
  }

  /** A decoded value is never longer than its text. */
  lemma {:induction false} DecodeShrinks(s: string)
    ensures Decode(s).Some? ==> |Decode(s).value| <= |s|
  {
    hide Value, ByteA, ByteB, ByteC;
    if |s| >= 4 { DecodeShrinks(s[4..]); }
  }

  lemma {:induction false} EncodeLength(b: Bytes)
    ensures |Encode(b)| == (|b| + 2) / 3 * 4
  {
    hide Letter;
    if |b| >= 3 {
      EncodeLength(b[3..]);
      assert (|b| + 2) / 3 == (|b[3..]| + 2) / 3 + 1;
    }
  }

  /** The test vectors of section 10 of RFC 4648, and the two letters that make the alphabet safe in addresses
      (section 5). */
  lemma TestVectors()
    ensures Encode([]) == "" && Encode([0x66]) == "Zg==" && Encode([0x66, 0x6F]) == "Zm8="
    ensures Encode([0x66, 0x6F, 0x6F]) == "Zm9v" && Encode([0x66, 0x6F, 0x6F, 0x62, 0x61, 0x72]) == "Zm9vYmFy"
    ensures Encode([0xFB, 0xFF]) == "-_8="
  {
    var six: Bytes := [0x66, 0x6F, 0x6F, 0x62, 0x61, 0x72];
    var three: Bytes := [0x66, 0x6F, 0x6F];
    assert three[3..] == [];
    var last: Bytes := [0x62, 0x61, 0x72];
    assert last[3..] == [];
    assert six[3..] == [0x62, 0x61, 0x72];
  }
}
