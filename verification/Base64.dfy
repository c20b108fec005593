/** encoding/base64 as both halves of the system use it: section 4 of RFC 4648
    with padding (tus metadata, device keys) and section 3.2 without it (the
    Argon2id hash string). */
module Base64 {
  import opened Wrappers
  import opened Text

  predicate IsLetter(c: char) {
    'A' <= c <= 'Z' || 'a' <= c <= 'z' || '0' <= c <= '9' || c == '+' || c == '/'
  }

  function Sextet(c: char): (v: nat)
    requires IsLetter(c)
    ensures v < 64
  {
    if 'A' <= c <= 'Z' then c as int - 'A' as int
    else if 'a' <= c <= 'z' then c as int - 'a' as int + 26
    else if '0' <= c <= '9' then c as int - '0' as int + 52
    else if c == '+' then 62
    else 63
  }

  function Letter(v: nat): (c: char)
    requires v < 64
    ensures IsLetter(c) && Sextet(c) == v
  {
    if v < 26 then ('A' as int + v) as char
    else if v < 52 then ('a' as int + v - 26) as char
    else if v < 62 then ('0' as int + v - 52) as char
    else if v == 62 then '+'
    else '/'
  }

  // The four letters of the group of three bytes x, y, z.

  function Letter0(x: Byte): char {
    Letter(x / 4)
  }

  function Letter1(x: Byte, y: Byte): char {
    Letter(x % 4 * 16 + y / 16)
  }

  function Letter2(y: Byte, z: Byte): char {
    Letter(y % 16 * 4 + z / 64)
  }

  function Letter3(z: Byte): char {
    Letter(z % 64)
  }

  /** EncodeToString: groups of three bytes, a short last group filled up with
      zero bits. */
  function Encode(b: seq<Byte>, padded: bool): (s: string)
    ensures forall c :: c in s ==> IsLetter(c) || (padded && c == '=')
    ensures s == "" <==> b == []
  {
    if b == [] then ""
    else if |b| == 1 then
      [Letter0(b[0]), Letter1(b[0], 0)] + (if padded then "==" else "")
    else if |b| == 2 then
      [Letter0(b[0]), Letter1(b[0], b[1]), Letter2(b[1], 0)] + (if padded then "=" else "")
    else
      [Letter0(b[0]), Letter1(b[0], b[1]), Letter2(b[1], b[2]), Letter3(b[2])] + Encode(b[3..], padded)
  }

  function First(c0: char, c1: char): Byte
    requires IsLetter(c0) && IsLetter(c1)
  {
    Sextet(c0) * 4 + Sextet(c1) / 16
  }

  function Second(c1: char, c2: char): Byte
    requires IsLetter(c1) && IsLetter(c2)
  {
    Sextet(c1) % 16 * 16 + Sextet(c2) / 4
  }

  function Third(c2: char, c3: char): Byte
    requires IsLetter(c2) && IsLetter(c3)
  {
    Sextet(c2) % 4 * 64 + Sextet(c3)
  }

  /** Decoding of a text from which line breaks were already dropped. Leftover
      low bits are ignored: the encodings in use are not strict. */
  function DecodeQuanta(s: string, padded: bool): (r: Option<seq<Byte>>)
    ensures r.Some? && s != "" ==> r.value != []
  {
    if s == "" then Some([])
    else if |s| < 2 || !IsLetter(s[0]) || !IsLetter(s[1]) then None
    else if |s| >= 4 && IsLetter(s[2]) && IsLetter(s[3]) then
      var rest := DecodeQuanta(s[4..], padded);
      if rest.None? then None
      else Some([First(s[0], s[1]), Second(s[1], s[2]), Third(s[2], s[3])] + rest.value)
    else if padded then
      if |s| == 4 && s[2..] == "==" then Some([First(s[0], s[1])])
      else if |s| == 4 && IsLetter(s[2]) && s[3] == '=' then
        Some([First(s[0], s[1]), Second(s[1], s[2])])
      else None
    else
      if |s| == 2 then Some([First(s[0], s[1])])
      else if |s| == 3 && IsLetter(s[2]) then Some([First(s[0], s[1]), Second(s[1], s[2])])
      else None
  }

  /** Go's decoder skips carriage returns and line feeds wherever they stand. */
  function DropLineBreaks(s: string): (r: string)
    ensures forall c :: c in r ==> c in s
  {
    if s == "" then ""
    else if s[0] == '\n' || s[0] == '\r' then DropLineBreaks(s[1..])
    else [s[0]] + DropLineBreaks(s[1..])
  }

  /** Encoding.DecodeString of StdEncoding (`padded`) or RawStdEncoding. */
  function Decode(s: string, padded: bool): Option<seq<Byte>> {
    DecodeQuanta(DropLineBreaks(s), padded)
  }

  lemma {:induction false} NoLineBreaks(s: string)
    requires '\n' !in s && '\r' !in s
    ensures DropLineBreaks(s) == s
  {
    if s != "" {
      NoLineBreaks(s[1..]);
    }
  }

  lemma {:induction false} KeepsFinal(s: string)
    requires s != "" && s[|s| - 1] != '\n' && s[|s| - 1] != '\r'
    ensures DropLineBreaks(s) != ""
  {
    if |s| > 1 {
      KeepsFinal(s[1..]);
    }
  }

  /** The letters of a group give its bytes back. */
  lemma GroupRoundTrip(x: Byte, y: Byte, z: Byte)
    ensures IsLetter(Letter0(x)) && IsLetter(Letter1(x, y)) && IsLetter(Letter2(y, z)) && IsLetter(Letter3(z))
    ensures First(Letter0(x), Letter1(x, y)) == x
    ensures Second(Letter1(x, y), Letter2(y, z)) == y
    ensures Third(Letter2(y, z), Letter3(z)) == z
  {
    hide Letter, Sextet, IsLetter;
  }

  lemma {:induction false} QuantaRoundTrip(b: seq<Byte>, padded: bool)
    ensures DecodeQuanta(Encode(b, padded), padded) == Some(b)
  {
    hide Letter0, Letter1, Letter2, Letter3, First, Second, Third;
    var s := Encode(b, padded);
    assert !IsLetter('=');
    if |b| >= 3 {
      GroupRoundTrip(b[0], b[1], b[2]);
      QuantaRoundTrip(b[3..], padded);
      assert s[4..] == Encode(b[3..], padded);
      assert b == [b[0], b[1], b[2]] + b[3..];
    } else if |b| == 2 {
      GroupRoundTrip(b[0], b[1], 0);
      assert b == [b[0], b[1]];
    } else if |b| == 1 {
      GroupRoundTrip(b[0], 0, 0);
      assert b == [b[0]];
    }
  }

  /** Decoding undoes encoding for every byte string, padded or not. */
  lemma RoundTrip(b: seq<Byte>, padded: bool)
    ensures Decode(Encode(b, padded), padded) == Some(b)
  {
    NoLineBreaks(Encode(b, padded));
    QuantaRoundTrip(b, padded);
  }

  // ---- Against RFC 4648 -----------------------------------------------------------

  /** Table 1 of section 4: where its runs begin and end, and that they are runs. */
  lemma AlphabetIs(v: nat)
    ensures Letter(0) == 'A' && Letter(25) == 'Z' && Letter(26) == 'a' && Letter(51) == 'z'
    ensures Letter(52) == '0' && Letter(61) == '9' && Letter(62) == '+' && Letter(63) == '/'
    ensures v < 63 && v != 25 && v != 51 && v != 61 && v != 62 ==> Letter(v + 1) as int == Letter(v) as int + 1
  {
  }

  /** The four letters of a group are its 24 bits, six by six. */
  lemma GroupBits(x: Byte, y: Byte, z: Byte)
    ensures IsLetter(Letter0(x)) && IsLetter(Letter1(x, y)) && IsLetter(Letter2(y, z)) && IsLetter(Letter3(z))
    ensures ((Sextet(Letter0(x)) * 64 + Sextet(Letter1(x, y))) * 64 + Sextet(Letter2(y, z))) * 64 + Sextet(Letter3(z))
         == (x * 256 + y) * 256 + z
  {
    hide Letter, Sextet, IsLetter;
  }

  /** Test vectors of section 10. */
  lemma Vectors()
    ensures Encode([102], true) == "Zg==" && Encode([102, 111], true) == "Zm8=" && Encode([102, 111, 111], true) == "Zm9v"
    ensures Encode([102], false) == "Zg" && Encode([102, 111], false) == "Zm8"
  {
    assert [102, 111, 111][3..] == [];
  }

  // ---- What is decoded, exactly ------------------------------------------------------

  predicate AllLetters(q: string) {
    forall i :: 0 <= i < |q| ==> IsLetter(q[i])
  }

  /** Letters in groups of four, the last one filled up with at most two equals signs; or,
      without padding, letters that do not leave a single one over. */
  predicate WellShaped(q: string, padded: bool) {
    if padded then
      && |q| % 4 == 0
      && (AllLetters(q)
          || (|q| >= 4 && AllLetters(q[..|q| - 1]) && q[|q| - 1] == '=')
          || (|q| >= 4 && AllLetters(q[..|q| - 2]) && q[|q| - 2] == '=' && q[|q| - 1] == '='))
    else |q| % 4 != 1 && AllLetters(q)
  }

  lemma ShapeGroup(q: string, padded: bool)
    requires |q| >= 4 && AllLetters(q[..4])
    ensures WellShaped(q, padded) <==> WellShaped(q[4..], padded)
  {
    hide IsLetter;
    var t := q[4..];
    assert forall i :: 0 <= i < 4 ==> q[i] == q[..4][i];
    LettersSplit(q, 4);
    if |q| >= 8 {
      LettersSplit(q[..|q| - 1], 4);
      assert q[..|q| - 1][..4] == q[..4];
      LettersSplit(q[..|q| - 2], 4);
      assert q[..|q| - 2][..4] == q[..4];
      assert q[..|q| - 1][4..] == t[..|t| - 1] && q[..|q| - 2][4..] == t[..|t| - 2];
    } else if |q| == 4 {
      assert !IsLetter('=') by { NoLetter(); }
      assert q[..4][3] == q[3];
    }
    hide AllLetters;
  }

  lemma NoLetter()
    ensures !IsLetter('=')
  {
  }

  lemma LettersSplit(q: string, k: nat)
    ensures k <= |q| ==> (AllLetters(q) <==> AllLetters(q[..k]) && AllLetters(q[k..]))
  {
    hide IsLetter;
    if k <= |q| {
      assert q == q[..k] + q[k..];
      assert forall i :: 0 <= i < |q| - k ==> q[k..][i] == q[i + k];
      assert forall i :: k <= i < |q| ==> q[i] == q[k..][i - k];
      assert forall i :: 0 <= i < k ==> q[..k][i] == q[i];
    }
  }

  /** A text without line breaks is decoded if and only if it has that shape. */
  lemma {:induction false} QuantaExactly(q: string, padded: bool)
    ensures DecodeQuanta(q, padded).Some? <==> WellShaped(q, padded)
    decreases |q|
  {
    NoLetter();
    hide First, Second, Third;
    if |q| >= 4 && IsLetter(q[0]) && IsLetter(q[1]) && IsLetter(q[2]) && IsLetter(q[3]) {
      assert AllLetters(q[..4]);
      ShapeGroup(q, padded);
      QuantaExactly(q[4..], padded);
      hide IsLetter, WellShaped;
    } else {
      ShortShape(q, padded);
    }
  }

  lemma ShortShape(q: string, padded: bool)
    requires !(|q| >= 4 && IsLetter(q[0]) && IsLetter(q[1]) && IsLetter(q[2]) && IsLetter(q[3]))
    ensures DecodeQuanta(q, padded).Some? <==> WellShaped(q, padded)
  {
    NoLetter();
    hide First, Second, Third, IsLetter;
    if |q| == 4 {
      assert q[2..] == "==" <==> q[2] == '=' && q[3] == '=';
      assert q[..3][0] == q[0] && q[..3][1] == q[1] && q[..3][2] == q[2];
      assert q[..2][0] == q[0] && q[..2][1] == q[1];
    } else if |q| > 4 {
      assert q[..|q| - 1][0] == q[0] && q[..|q| - 1][1] == q[1] && q[..|q| - 1][2] == q[2] && q[..|q| - 1][3] == q[3];
      if |q| >= 6 {
        assert q[..|q| - 2][0] == q[0] && q[..|q| - 2][1] == q[1] && q[..|q| - 2][2] == q[2] && q[..|q| - 2][3] == q[3];
      }
    }
  }

  // ---- Line breaks ----------------------------------------------------------------------

  predicate IsBreak(c: char) {
    c == '\n' || c == '\r'
  }

  /** Dropping takes the breaks out and leaves the rest, in order. */
  lemma {:induction false} DropExactly(a: string, c: char, b: string)
    ensures DropLineBreaks(a + [c] + b) == DropLineBreaks(a) + (if IsBreak(c) then "" else [c]) + DropLineBreaks(b)
    decreases |a|
  {
    var s := a + [c] + b;
    if a == "" {
      assert s == [c] + b && s[1..] == b;
    } else {
      DropExactly(a[1..], c, b);
      assert s[1..] == a[1..] + [c] + b;
    }
  }

  /** A text is decoded if and only if, its line breaks aside, it has the shape of an
      encoding; everything else is refused. */
  lemma DecodeExactly(s: string, padded: bool)
    ensures Decode(s, padded).Some? <==> WellShaped(DropLineBreaks(s), padded)
  {
    QuantaExactly(DropLineBreaks(s), padded);
    hide DropLineBreaks, DecodeQuanta, WellShaped;
  }
}
