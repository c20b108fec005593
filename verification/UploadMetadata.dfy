/** The tus `Upload-Metadata` header: the app prints it, the daemon parses it. */
module UploadMetadata {
  import opened Wrappers
  import opened Text
  import Base64

  /** One entry of the map the app encodes; `value` is its UTF-8 form. */
  datatype Entry = Entry(key: string, value: seq<Byte>)

  type Metadata = map<string, seq<Byte>>

  function EncodeEntry(e: Entry): string {
    e.key + " " + Base64.Encode(e.value, true)
  }

  function EncodeEntries(es: seq<Entry>): (parts: seq<string>)
    ensures |parts| == |es|
    ensures forall i :: 0 <= i < |es| ==> parts[i] == EncodeEntry(es[i])
  {
    if es == [] then [] else [EncodeEntry(es[0])] + EncodeEntries(es[1..])
  }

  /** encodeTusMetadata, on the entries of the map in iteration order. */
  function Encode(es: seq<Entry>): string {
    Join(EncodeEntries(es), ',')
  }

  /** Where `c` first stands in `s`, or the length of `s`. */
  function IndexOf(s: string, c: char): (i: nat)
    ensures i <= |s| && c !in s[..i]
    ensures i < |s| ==> s[i] == c
  {
    if s == "" || s[0] == c then 0
    else
      var i := 1 + IndexOf(s[1..], c);
      assert s[..i] == [s[0]] + s[1..][..i - 1];
      i
  }

  /** A piece that names a key and carries an encoded value. */
  function AddValue(out: Metadata, key: string, code: string): Metadata {
    match Base64.Decode(code, true)
    case None => out
    case Some(value) => out[key := value]
  }

  function AddTrimmed(out: Metadata, part: string): Metadata {
    var i := IndexOf(part, ' ');
    if part == "" then out
    else if i == |part| then out[part := []]
    else AddValue(out, part[..i], part[i + 1..])
  }

  /** What one comma-separated piece of the header does to the map. */
  function AddPart(out: Metadata, raw: string): Metadata {
    AddTrimmed(out, TrimSpace(raw))
  }

  function Fold<A, B>(f: (A, B) -> A, out: A, xs: seq<B>): A
    decreases |xs|
  {
    if xs == [] then out else Fold(f, f(out, xs[0]), xs[1..])
  }

  function AddParts(out: Metadata, parts: seq<string>): Metadata {
    Fold(AddPart, out, parts)
  }

  function Parsed(header: string): Metadata {
    AddParts(map[], Split(header, ','))
  }

  method ParsePart(out: Metadata, part: string) returns (out': Metadata)
    ensures out' == AddTrimmed(out, part)
  {
    if part == "" {
      return out;
    }
    var i := IndexOf(part, ' ');
    if i == |part| {
      return out[part := []];
    }
    var decoded := Base64.Decode(part[i + 1..], true);
    if decoded.None? {
      return out;
    }
    return out[part[..i] := decoded.value];
  }

  /** The pass over the pieces that fills the map. */
  method FillMap(parts: seq<string>) returns (out: Metadata)
    ensures out == AddParts(map[], parts)
  {
    hide AddTrimmed, TrimSpace, IndexOf;
    out := map[];
    for n := 0 to |parts|
      invariant AddParts(out, parts[n..]) == AddParts(map[], parts)
    {
      assert parts[n..][1..] == parts[n + 1..];
      out := ParsePart(out, TrimSpace(parts[n]));
    }
  }

  method ParseUploadMetadata(header: string) returns (out: Metadata)
    ensures out == Parsed(header)
  {
    out := FillMap(Split(header, ','));
  }

  // ---- The map the entries stand for ---------------------------------------

  function AddEntries(out: Metadata, es: seq<Entry>): Metadata
    decreases |es|
  {
    if es == [] then out else AddEntries(out[es[0].key := es[0].value], es[1..])
  }

  /** The map itself; a Dart map has each key once. */
  function AsMap(es: seq<Entry>): Metadata {
    AddEntries(map[], es)
  }

  predicate DistinctKeys(es: seq<Entry>) {
    forall i, j :: 0 <= i < j < |es| ==> es[i].key != es[j].key
  }

  lemma {:induction false} AddEntriesLookup(out: Metadata, es: seq<Entry>)
    requires DistinctKeys(es)
    ensures forall k :: k in out && (forall e :: e in es ==> e.key != k)
              ==> k in AddEntries(out, es) && AddEntries(out, es)[k] == out[k]
    ensures forall e :: e in es ==> e.key in AddEntries(out, es) && AddEntries(out, es)[e.key] == e.value
    ensures forall k :: k in AddEntries(out, es) ==> k in out || exists e :: e in es && e.key == k
    decreases |es|
  {
    if es != [] {
      AddEntriesLookup(out[es[0].key := es[0].value], es[1..]);
    }
  }

  // ---- When an entry survives the trip --------------------------------------

  /** An entry the header format can carry. White space other than a blank may
      stand inside a key, but not at its front; at its end only when a value
      follows, because an empty value leaves a bare key that gets trimmed. */
  predicate Carried(e: Entry) {
    && e.key != "" && ',' !in e.key && ' ' !in e.key
    && !IsSpace(e.key[0])
    && (e.value == [] ==> !IsSpace(e.key[|e.key| - 1]))
  }

  lemma TrimNothing(s: string)
    requires s != "" && !IsSpace(s[0]) && !IsSpace(s[|s| - 1])
    ensures TrimSpace(s) == s
  {
  }

  lemma TrimBareKey(key: string)
    requires key != "" && !IsSpace(key[0]) && !IsSpace(key[|key| - 1])
    ensures TrimSpace(key + " ") == key
  {
    var s := key + " ";
    assert TrimLeft(s) == s;
    assert s[..|s| - 1] == key;
    assert TrimRight(s) == TrimRight(key);
  }

  /** Where the blank is found when no earlier part of the text has one. */
  lemma IndexOfAfter(a: string, c: char, b: string)
    requires c !in a
    ensures IndexOf(a + [c] + b, c) == |a|
  {
    var s := a + [c] + b;
    var i := IndexOf(s, c);
    assert s[|a|] == c;
    assert forall j :: 0 <= j < |a| ==> s[j] == a[j] && a[j] in a;
    assert forall j :: 0 <= j < i ==> s[j] == s[..i][j];
  }

  lemma EncodedEntryHasNoComma(e: Entry)
    requires ',' !in e.key
    ensures ',' !in EncodeEntry(e)
  {
    var code := Base64.Encode(e.value, true);
    assert !Base64.IsLetter(',');
    assert ',' !in code;
    assert EncodeEntry(e) == e.key + [' '] + code;
  }

  lemma AddEncodedValue(out: Metadata, key: string, value: seq<Byte>)
    requires key != "" && ' ' !in key
    ensures AddTrimmed(out, key + " " + Base64.Encode(value, true)) == out[key := value]
  {
    var code := Base64.Encode(value, true);
    var part := key + [' '] + code;
    IndexOfAfter(key, ' ', code);
    assert part[..|key|] == key && part[|key| + 1..] == code;
    assert AddValue(out, key, code) == out[key := value] by {
      Base64.RoundTrip(value, true);
    }
  }

  lemma EncodedEntryTrims(e: Entry)
    requires Carried(e)
    ensures TrimSpace(EncodeEntry(e)) == if e.value == [] then e.key else EncodeEntry(e)
  {
    var code := Base64.Encode(e.value, true);
    var raw := e.key + " " + code;
    if e.value == [] {
      assert raw == e.key + " ";
      TrimBareKey(e.key);
    } else {
      assert raw[|raw| - 1] == code[|code| - 1] && code[|code| - 1] in code;
      TrimNothing(raw);
    }
  }

  lemma AddEncodedEntry(out: Metadata, e: Entry)
    requires Carried(e)
    ensures AddPart(out, EncodeEntry(e)) == out[e.key := e.value]
  {
    hide TrimSpace, Base64.Encode, AddValue;
    EncodedEntryTrims(e);
    if e.value == [] {
      assert e.key[..|e.key|] == e.key;
    } else {
      AddEncodedValue(out, e.key, e.value);
    }
  }

  lemma {:induction false} AddEncodedEntries(out: Metadata, es: seq<Entry>)
    requires forall e :: e in es ==> Carried(e)
    ensures AddParts(out, EncodeEntries(es)) == AddEntries(out, es)
    decreases |es|
  {
    if es != [] {
      AddEncodedEntry(out, es[0]);
      assert EncodeEntries(es)[1..] == EncodeEntries(es[1..]);
      AddEncodedEntries(out[es[0].key := es[0].value], es[1..]);
    }
  }

  lemma CarriedRoundTrip(es: seq<Entry>)
    requires forall e :: e in es ==> Carried(e)
    ensures Parsed(Encode(es)) == AsMap(es)
  {
    var parts := EncodeEntries(es);
    if es == [] {
      assert Split("", ',') == [""];
      assert AddParts(map[], [""]) == AddParts(AddPart(map[], ""), [""][1..]);
    } else {
      forall p | p in parts ensures ',' !in p {
        var i :| 0 <= i < |parts| && p == parts[i];
        assert Carried(es[i]);
        EncodedEntryHasNoComma(es[i]);
      }
      SplitJoin(parts, ',');
      AddEncodedEntries(map[], es);
    }
  }

  predicate AllCarried(out: Metadata) {
    forall k :: k in out ==> Carried(Entry(k, out[k]))
  }

  /** Whatever the header, everything the parser puts in the map is an entry the
      format can carry. */
  lemma AddPartCarried(out: Metadata, raw: string)
    requires ',' !in raw && AllCarried(out)
    ensures AllCarried(AddPart(out, raw))
  {
    hide TrimSpace, IndexOf, Base64.DropLineBreaks, Base64.DecodeQuanta;
    assert IsSpace(' ') && IsSpace('\n') && IsSpace('\r');
    var part := TrimSpace(raw);
    if part != "" {
      var i := IndexOf(part, ' ');
      if i < |part| {
        var field := part[i + 1..];
        assert field[|field| - 1] == part[|part| - 1];
        Base64.KeepsFinal(field);
      } else {
        assert part[..i] == part;
      }
    }
  }

  lemma {:induction false} FoldKeeps<A(!new), B(!new)>(f: (A, B) -> A, inv: A -> bool, out: A, xs: seq<B>)
    requires inv(out) && forall a, x :: inv(a) && x in xs ==> inv(f(a, x))
    ensures inv(Fold(f, out, xs))
    decreases |xs|
  {
    if xs != [] {
      assert inv(f(out, xs[0]));
      FoldKeeps(f, inv, f(out, xs[0]), xs[1..]);
    }
  }

  lemma ParsedCarried(header: string)
    ensures AllCarried(Parsed(header))
  {
    var pieces := Split(header, ',');
    SplitPieces(header, ',');
    assert AllCarried(map[]);
    forall out, raw | AllCarried(out) && raw in pieces ensures AllCarried(AddPart(out, raw)) {
      AddPartCarried(out, raw);
    }
    hide AllCarried, AddPart;
    FoldKeeps(AddPart, AllCarried, map[], pieces);
  }

  /** The round trip, exactly: parsing an encoded map gives the map back if and
      only if the format can carry each of its entries. */
  lemma RoundTripExactly(es: seq<Entry>)
    requires DistinctKeys(es)
    ensures Parsed(Encode(es)) == AsMap(es) <==> forall e :: e in es ==> Carried(e)
  {
    if forall e :: e in es ==> Carried(e) {
      CarriedRoundTrip(es);
    }
    ParsedCarried(Encode(es));
    AddEntriesLookup(map[], es);
    if Parsed(Encode(es)) == AsMap(es) {
      forall e | e in es ensures Carried(e) {
        assert Carried(Entry(e.key, AsMap(es)[e.key]));
      }
    }
  }

  /** In particular for keys that are not empty and have no comma and no white
      space, whatever the values, empty ones and the empty map included. */
  lemma PlainKeysRoundTrip(es: seq<Entry>)
    requires forall e :: e in es ==> e.key != "" && ',' !in e.key
    requires forall e, c :: e in es && c in e.key ==> !IsSpace(c)
    ensures Parsed(Encode(es)) == AsMap(es)
  {
    assert IsSpace(' ');
    forall e | e in es ensures Carried(e) {
      assert e.key[0] in e.key && e.key[|e.key| - 1] in e.key;
    }
    CarriedRoundTrip(es);
  }

  // ---- Any header --------------------------------------------------------------------

  /** What one piece does: blank, nothing; one word, a key without a value; a word, a blank
      and a value in base64, that entry; and if the value is not base64, nothing. */
  lemma PieceExactly(out: Metadata, raw: string, key: string, code: string)
    ensures TrimSpace(raw) == "" ==> AddPart(out, raw) == out
    ensures TrimSpace(raw) != "" && ' ' !in TrimSpace(raw) ==> AddPart(out, raw) == out[TrimSpace(raw) := []]
    ensures TrimSpace(raw) == key + " " + code && ' ' !in key && Base64.Decode(code, true).Some? ==>
              AddPart(out, raw) == out[key := Base64.Decode(code, true).value]
    ensures TrimSpace(raw) == key + " " + code && ' ' !in key && Base64.Decode(code, true).None? ==>
              AddPart(out, raw) == out
  {
    hide TrimSpace, Base64.Decode;
    var part := TrimSpace(raw);
    if part != "" && ' ' !in part {
      assert part[..|part|] == part;
      assert IndexOf(part, ' ') == |part|;
    }
    if part == key + " " + code && ' ' !in key {
      assert part == key + [' '] + code;
      IndexOfAfter(key, ' ', code);
      assert part[..|key|] == key && part[|key| + 1..] == code;
    }
  }

  lemma {:induction false} FoldInTwo<A, B>(f: (A, B) -> A, out: A, a: seq<B>, b: seq<B>)
    ensures Fold(f, out, a + b) == Fold(f, Fold(f, out, a), b)
    decreases |a|
  {
    if a == [] {
      assert a + b == b;
    } else {
      assert (a + b)[1..] == a[1..] + b;
      FoldInTwo(f, f(out, a[0]), a[1..], b);
    }
  }

  /** A header is read piece by piece, whatever a piece does; so of two values for a key
      the later one stays. */
  lemma LastPiece<A>(f: (A, string) -> A, out: A, header: string, raw: string)
    requires ',' !in raw
    ensures Fold(f, out, Split(header + "," + raw, ',')) == f(Fold(f, out, Split(header, ',')), raw)
  {
    assert header + "," + raw == header + [','] + raw;
    SplitConcat(header, raw, ',');
    SplitWhole(raw, ',');
    hide Split;
    FoldInTwo(f, out, Split(header, ','), [raw]);
    assert [raw][1..] == [];
    var before := Fold(f, out, Split(header, ','));
    assert Fold(f, before, [raw]) == Fold(f, f(before, raw), []);
  }
}
