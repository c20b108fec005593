/** The string form in which an Argon2id hash is stored, and its decoder. */
module PasswordHash {
  import opened Wrappers
  import opened Text
  import Base64
  import Decimal

  /** argon2.Version, 0x13. */
  const VERSION: nat := 19

  const MAX_UINT32: int := 0xFFFF_FFFF
  const MIN_INT64: int := -0x8000_0000_0000_0000

  type Uint32 = x: int | 0 <= x <= MAX_UINT32
  type Uint8 = x: int | 0 <= x < 256

  datatype Params = Params(memoryKiB: Uint32, iterations: Uint32, parallelism: Uint8)

  datatype Decoded = Decoded(params: Params, salt: seq<Byte>, hash: seq<Byte>)

  function EncodeVersion(): string {
    "v=" + Decimal.Print(VERSION)
  }

  function EncodeParams(p: Params): string {
    "m=" + Decimal.Print(p.memoryKiB) + ",t=" + Decimal.Print(p.iterations)
    + ",p=" + Decimal.Print(p.parallelism)
  }

  /** The format HashPassword prints. */
  function Encode(p: Params, salt: seq<Byte>, hash: seq<Byte>): string {
    "$argon2id$" + EncodeVersion() + "$" + EncodeParams(p)
    + "$" + Base64.Encode(salt, false) + "$" + Base64.Encode(hash, false)
  }

  // ---- fmt.Sscanf, as far as the decoder uses it -----------------------------

  /** The rest of `s` behind a literal of the format. */
  function Literal(s: string, lit: string): Option<string> {
    if HasPrefix(s, lit) then Some(s[|lit|..]) else None
  }

  /** Blanks in front of a number are skipped; a line feed among them is an
      error. */
  function SkipSpace(s: string): Option<string> {
    if s == "" || !IsSpace(s[0]) then Some(s)
    else if s[0] == '\n' then None
    else SkipSpace(s[1..])
  }

  /** One %d for a number in lo..hi: an optional sign if the type has one, then
      digits. The value and the text behind it. */
  function Number(s: string, lo: int, hi: int): (r: Option<(int, string)>)
    ensures r.Some? ==> lo <= r.value.0 <= hi
  {
    match SkipSpace(s)
    case None => None
    case Some(t) =>
      var signed := lo < 0 && t != "" && (t[0] == '+' || t[0] == '-');
      var digits := if signed then t[1..] else t;
      var k := Decimal.DigitRun(digits);
      if k == 0 then None
      else
        assert forall c :: c in digits[..k] ==> Decimal.IsDigit(c);
        var n: int := Decimal.Value(digits[..k]);
        var v: int := if signed && t[0] == '-' then -n else n;
        if lo <= v <= hi then Some((v, digits[k..])) else None
  }

  /** A literal and the number behind it. */
  function Labelled(s: string, lit: string, lo: int, hi: int): Option<(int, string)> {
    match Literal(s, lit)
    case None => None
    case Some(rest) => Number(rest, lo, hi)
  }

  /** Sscanf(s, "v=%d", &version). Text behind the number is not looked at. */
  function ScanVersion(s: string): Option<int> {
    match Labelled(s, "v=", MIN_INT64, Decimal.MAX_INT64)
    case None => None
    case Some(v) => Some(v.0)
  }

  /** Sscanf(s, "m=%d,t=%d,p=%d", ...) with the conversion of the third number
      to eight bits that follows it. */
  function ScanParams(s: string): Option<Params> {
    var m := Labelled(s, "m=", 0, MAX_UINT32);
    if m.None? then None
    else
      var t := Labelled(m.value.1, ",t=", 0, MAX_UINT32);
      if t.None? then None
      else
        var p := Labelled(t.value.1, ",p=", MIN_INT64, Decimal.MAX_INT64);
        if p.None? then None
        else Some(Params(m.value.0, t.value.0, p.value.0 % 256))
  }

  function DecodeFields(parts: seq<string>): (r: Option<Decoded>)
    ensures r.Some? ==> r.value.salt != [] && r.value.hash != []
  {
    if |parts| != 6 || parts[1] != "argon2id" then None
    else if ScanVersion(parts[2]) != Some(VERSION) then None
    else
      var p := ScanParams(parts[3]);
      var salt := Base64.Decode(parts[4], false);
      var hash := Base64.Decode(parts[5], false);
      if p.None? || salt.None? || hash.None? then None
      else if salt.value == [] || hash.value == [] then None
      else Some(Decoded(p.value, salt.value, hash.value))
  }

  /** decodeArgon2id; None is ErrMalformedHash. */
  function Decode(encoded: string): Option<Decoded> {
    DecodeFields(Split(encoded, '$'))
  }

  // ---- Decoding undoes encoding ----------------------------------------------

  lemma LiteralThere(lit: string, rest: string)
    ensures Literal(lit + rest, lit) == Some(rest)
  {
    assert (lit + rest)[..|lit|] == lit && (lit + rest)[|lit|..] == rest;
  }

  /** A printed number is scanned back, up to the text that follows it. */
  lemma NumberPrinted(n: nat, rest: string, lo: int, hi: int)
    requires lo <= 0 && n <= hi
    requires rest != "" ==> !Decimal.IsDigit(rest[0])
    ensures Number(Decimal.Print(n) + rest, lo, hi) == Some((n, rest))
  {
    hide Decimal.Print, Decimal.DigitRun, Decimal.Value;
    var d := Decimal.Print(n);
    var s := d + rest;
    assert s[0] == d[0] && d[0] in d;
    Decimal.DigitRunOfPrinted(d, rest);
    assert s[..|d|] == d && s[|d|..] == rest;
    Decimal.ValuePrint(n);
  }

  lemma LabelledPrinted(lit: string, n: nat, rest: string, lo: int, hi: int)
    requires lo <= 0 && n <= hi
    requires rest != "" ==> !Decimal.IsDigit(rest[0])
    ensures Labelled(lit + Decimal.Print(n) + rest, lit, lo, hi) == Some((n, rest))
  {
    assert lit + Decimal.Print(n) + rest == lit + (Decimal.Print(n) + rest);
    LiteralThere(lit, Decimal.Print(n) + rest);
    NumberPrinted(n, rest, lo, hi);
  }

  lemma ScanPrintedParams(p: Params)
    ensures ScanParams(EncodeParams(p)) == Some(p)
  {
    hide Labelled;
    hide Decimal.Print;
    var c := ",p=" + Decimal.Print(p.parallelism) + "";
    var b := ",t=" + Decimal.Print(p.iterations) + c;
    var a := "m=" + Decimal.Print(p.memoryKiB) + b;
    assert EncodeParams(p) == a;
    LabelledPrinted("m=", p.memoryKiB, b, 0, MAX_UINT32);
    LabelledPrinted(",t=", p.iterations, c, 0, MAX_UINT32);
    LabelledPrinted(",p=", p.parallelism, "", MIN_INT64, Decimal.MAX_INT64);
  }

  lemma ScanPrintedVersion()
    ensures ScanVersion(EncodeVersion()) == Some(VERSION)
  {
    assert EncodeVersion() == "v=" + Decimal.Print(VERSION) + "";
    LabelledPrinted("v=", VERSION, "", MIN_INT64, Decimal.MAX_INT64);
  }

  lemma NoDollar(p: Params)
    ensures '$' !in EncodeVersion() && '$' !in EncodeParams(p)
  {
    hide Decimal.Print;
    assert !Decimal.IsDigit('$');
  }

  lemma FieldsOfEncoded(p: Params, salt: seq<Byte>, hash: seq<Byte>)
    ensures Split(Encode(p, salt, hash), '$')
         == ["", "argon2id", EncodeVersion(), EncodeParams(p),
             Base64.Encode(salt, false), Base64.Encode(hash, false)]
  {
    hide Split, EncodeVersion, EncodeParams, Base64.Encode;
    var s, h := Base64.Encode(salt, false), Base64.Encode(hash, false);
    assert !Base64.IsLetter('$');
    NoDollar(p);
    var r4 := s + ['$'] + h;
    var r3 := EncodeParams(p) + ['$'] + r4;
    var r2 := EncodeVersion() + ['$'] + r3;
    var r1 := "argon2id" + ['$'] + r2;
    assert Encode(p, salt, hash) == "" + ['$'] + r1;
    SplitWhole(h, '$');
    SplitField(s, h, '$');
    SplitField(EncodeParams(p), r4, '$');
    SplitField(EncodeVersion(), r3, '$');
    SplitField("argon2id", r2, '$');
    SplitField("", r1, '$');
  }

  /** The stored form gives back exactly the parameters, the salt and the hash it
      was printed from, for all 32-bit costs, every parallelism a byte can hold
      and any non-empty salt and hash; an empty salt or hash is refused. */
  lemma RoundTrip(p: Params, salt: seq<Byte>, hash: seq<Byte>)
    ensures Decode(Encode(p, salt, hash))
         == if salt != [] && hash != [] then Some(Decoded(p, salt, hash)) else None
  {
    hide ScanParams, ScanVersion, Split, Base64.Encode, Base64.Decode, EncodeParams, EncodeVersion, Encode;
    FieldsOfEncoded(p, salt, hash);
    ScanPrintedVersion();
    ScanPrintedParams(p);
    Base64.RoundTrip(salt, false);
    Base64.RoundTrip(hash, false);
  }

  // ---- The password check over the stored form --------------------------------

  /** argon2.IDKey, left uninterpreted: password, salt, costs, key length. */
  type KeyFunction = (seq<Byte>, seq<Byte>, Params, nat) -> seq<Byte>

  /** The parameters this daemon hashes with: 19 MiB, two passes, one lane. */
  const CURRENT: Params := Params(19 * 1024, 2, 1)
  const KEY_LENGTH: nat := 32

  /** HashPassword for a drawn salt; None is ErrEmptyPassword. */
  function HashPassword(idKey: KeyFunction, password: seq<Byte>, salt: seq<Byte>): Option<string> {
    if password == [] then None
    else Some(Encode(CURRENT, salt, idKey(password, salt, CURRENT, KEY_LENGTH)))
  }

  /** ComparePassword: does the password match the stored form? */
  predicate Matches(idKey: KeyFunction, password: seq<Byte>, encoded: string) {
    match Decode(encoded)
    case None => false
    case Some(d) => idKey(password, d.salt, d.params, |d.hash|) == d.hash
  }

  /** A password is accepted against a stored hash exactly when it derives the
      same key, so the one that was hashed always is. */
  lemma HashedPasswordMatches(idKey: KeyFunction, password: seq<Byte>, salt: seq<Byte>, guess: seq<Byte>)
    requires password != [] && salt != []
    requires |idKey(password, salt, CURRENT, KEY_LENGTH)| == KEY_LENGTH
    ensures Matches(idKey, guess, HashPassword(idKey, password, salt).value)
       <==> idKey(guess, salt, CURRENT, KEY_LENGTH) == idKey(password, salt, CURRENT, KEY_LENGTH)
    ensures Matches(idKey, password, HashPassword(idKey, password, salt).value)
  {
    RoundTrip(CURRENT, salt, idKey(password, salt, CURRENT, KEY_LENGTH));
  }

  // ---- The form, and what is not one ------------------------------------------------

  /** The version and the costs as this daemon prints them. */
  lemma CurrentForm()
    ensures EncodeVersion() == "v=19" && EncodeParams(CURRENT) == "m=19456,t=2,p=1"
  {
    CurrentNumbers();
    hide Decimal.Print;
    assert EncodeVersion() == "v=" + "19";
    assert EncodeParams(CURRENT) == "m=" + "19456" + ",t=" + "2" + ",p=" + "1";
  }

  lemma CurrentNumbers()
    ensures Decimal.Print(19) == "19" && Decimal.Print(2) == "2" && Decimal.Print(1) == "1"
    ensures Decimal.Print(19456) == "19456"
  {
    assert Decimal.Print(194) == "194" && Decimal.Print(1945) == "194" + "5";
  }

  /** Another algorithm is refused, whatever follows. */
  lemma OtherAlgorithm(name: string, rest: string)
    requires '$' !in name && name != "argon2id"
    ensures Decode("$" + name + "$" + rest) == None
  {
    assert "$" + name + "$" + rest == "" + ['$'] + (name + ['$'] + rest);
    SplitField("", name + ['$'] + rest, '$');
    SplitField(name, rest, '$');
    hide ScanVersion, ScanParams, Base64.Decode, Split;
  }

  /** Another version is refused, whatever follows. */
  lemma OtherVersion(version: nat, rest: string)
    requires version != 19 && version <= Decimal.MAX_INT64
    ensures Decode("$argon2id$v=" + Decimal.Print(version) + "$" + rest) == None
  {
    hide Decimal.Print;
    var v := "v=" + Decimal.Print(version);
    var r1 := "argon2id" + ['$'] + (v + ['$'] + rest);
    assert "$argon2id$v=" + Decimal.Print(version) + "$" + rest == "" + ['$'] + r1;
    assert !Decimal.IsDigit('$');
    assert '$' !in Decimal.Print(version);
    assert '$' !in v;
    SplitField(v, rest, '$');
    SplitField("argon2id", v + ['$'] + rest, '$');
    SplitField("", r1, '$');
    assert v == "v=" + Decimal.Print(version) + "";
    LabelledPrinted("v=", version, "", MIN_INT64, Decimal.MAX_INT64);
    hide ScanParams, Base64.Decode, Split, Labelled;
  }

  /** A text that is not six fields is refused. */
  lemma SixFields(fields: seq<string>)
    requires fields != [] && |fields| != 6 && forall f :: f in fields ==> '$' !in f
    ensures Decode(Join(fields, '$')) == None
  {
    SplitJoin(fields, '$');
    hide Split, ScanVersion, ScanParams, Base64.Decode;
  }
}
