/**
 * The correlation map kept in `telegram_ticket_map.json`: it maps the id of
 * every alert the bot sent on Telegram to the ticket it announced, and holds
 * one dedup marker `alerted_<ticket>_<latest message id or "initial">` per
 * ticket state already announced.
 *
 * In memory the script keeps it as a PHP array; here its keys are the typed
 * `Key` and the JSON file is a map from key strings. `EncodeKey` spells a key
 * the way the script builds it, and `Load` reads a file back the way PHP's
 * array lookups see it.
 */
module CorrelationMap {

  import opened Wrappers
  import opened Text

  /** The part of a dedup marker after the ticket id: the id of the ticket's
      latest customer message, or `initial` when it has none. */
  datatype MsgRef = Initial | Id(n: int)

  datatype Key =
    | MsgId(id: int)                     // a Telegram message id: `$newMap[$tgMsgId]`
    | Alerted(ticket: int, ref: MsgRef)  // a dedup marker: `$newMap['alerted_' . $uniqueKey]`

  /** The JSON values the script stores: a ticket id under a message id, and
      `true` under a marker. `Null` is a JSON `null`, which `isset` ignores. */
  datatype Value = TicketRef(id: int) | Flag(b: bool) | Null

  type CorrMap = map<Key, Value>

  /** PHP `isset($map[$k])`: the key is present with a non-null value. */
  predicate Isset(m: CorrMap, k: Key) {
    k in m && m[k] != Null
  }

  /** PHP's `(int)` cast of a stored value. */
  function ToInt(v: Value): int {
    match v
    case TicketRef(id) => id
    case Flag(b) => if b then 1 else 0
    case Null => 0
  }

  const AlertedPrefix: string := "alerted_"
  const InitialTag: string := "initial"

  function RefText(r: MsgRef): string {
    match r
    case Initial => InitialTag
    case Id(n) => IntToDecimal(n)
  }

  /** The JSON object key under which the script stores `k`. */
  function EncodeKey(k: Key): string {
    match k
    case MsgId(id) => IntToDecimal(id)
    case Alerted(t, r) => AlertedPrefix + IntToDecimal(t) + "_" + RefText(r)
  }

  /** The position of the first `c` in `s`. */
  function IndexOf(s: string, c: char): (r: Option<nat>)
    ensures r.None? ==> c !in s
    ensures r.Some? ==> r.value < |s| && s[r.value] == c && c !in s[..r.value]
  {
    if s == [] then None
    else if s[0] == c then Some(0)
    else
      match IndexOf(s[1..], c)
      case None => None
      case Some(i) => assert s[..i + 1] == [s[0]] + s[1..][..i]; Some(i + 1)
  }

  function DecodeRef(s: string): Option<MsgRef> {
    if s == InitialTag then Some(Initial)
    else match ParseInt(s)
      case Some(n) => Some(Id(n))
      case None => None
  }

  /** Reads `<ticket>_<ref>`, the part of a marker after `alerted_`. */
  function DecodeMarker(rest: string): Option<Key> {
    match IndexOf(rest, '_')
    case None => None
    case Some(i) =>
      match ParseInt(rest[..i])
      case None => None
      case Some(t) =>
        match DecodeRef(rest[i + 1..])
        case None => None
        case Some(r) => Some(Alerted(t, r))
  }

  predicate HasAlertedPrefix(s: string) {
    |s| >= |AlertedPrefix| && s[..|AlertedPrefix|] == AlertedPrefix
  }

  /** The key a JSON object key stands for, if it is spelled the way the
      script writes keys; PHP would never find any other spelling. */
  function DecodeKey(s: string): Option<Key> {
    if HasAlertedPrefix(s) then DecodeMarker(s[|AlertedPrefix|..])
    else
      match ParseInt(s)
      case Some(n) => Some(MsgId(n))
      case None => None
  }

  lemma DecodeRefText(r: MsgRef)
    ensures DecodeRef(RefText(r)) == Some(r)
  {
    match r
    case Initial =>
    case Id(n) =>
      ParseIntToDecimal(n);
      var d := IntToDecimal(n);
      assert d[0] == '-' || IsDigit(d[0]);
      assert d != InitialTag;
  }

  /** A decimal integer never starts with the marker prefix. */
  lemma DecimalIsNotAlerted(n: int)
    ensures !HasAlertedPrefix(IntToDecimal(n))
  {
    var s := IntToDecimal(n);
    if n < 0 {
      assert s[0] == '-';
    } else {
      assert IsDigit(s[0]);
    }
  }

  /** Every key is read back from the spelling the script writes for it. */
  lemma DecodeEncodeKey(k: Key)
    ensures DecodeKey(EncodeKey(k)) == Some(k)
  {
    var s := EncodeKey(k);
    match k
    case MsgId(id) =>
      DecimalIsNotAlerted(id);
      ParseIntToDecimal(id);
    case Alerted(t, r) =>
      var d := IntToDecimal(t);
      var rest := s[|AlertedPrefix|..];
      assert s[..|AlertedPrefix|] == AlertedPrefix;
      assert rest == d + "_" + RefText(r);
      DecimalHasNoUnderscore(t);
      assert rest[|d|] == '_';
      assert rest[..|d|] == d;
      IndexOfFirst(rest, d, '_');
      assert rest[|d| + 1..] == RefText(r);
      ParseIntToDecimal(t);
      DecodeRefText(r);
  }

  lemma IndexOfFirst(s: string, prefix: string, c: char)
    requires |prefix| < |s| && s[..|prefix|] == prefix && s[|prefix|] == c && c !in prefix
    ensures IndexOf(s, c) == Some(|prefix|)
  {
    assert s[|prefix|] in s;
    var i := IndexOf(s, c).value;
    assert forall j | 0 <= j < |prefix| :: s[j] == prefix[j];
    assert i >= |prefix|;
  }

  /** A string that decodes is the spelling the script writes for that key:
      no two JSON keys denote the same map key. */
  lemma EncodeDecodeKey(s: string, k: Key)
    requires DecodeKey(s) == Some(k)
    ensures s == EncodeKey(k)
  {
    if HasAlertedPrefix(s) {
      var rest := s[|AlertedPrefix|..];
      EncodeDecodeMarker(rest);
      assert s == AlertedPrefix + rest;
    } else {
      ParseIntCanonical(s, ParseInt(s).value);
    }
  }

  lemma EncodeDecodeMarker(rest: string)
    requires DecodeMarker(rest).Some?
    ensures DecodeMarker(rest).value.Alerted?
    ensures AlertedPrefix + rest == EncodeKey(DecodeMarker(rest).value)
  {
    var i, t, r := MarkerParts(rest);
    MarkerPartsSpelling(rest, i, t, r);
    MarkerSpellingConcat(rest, t, r);
  }

  /** Where `DecodeMarker` splits `rest`, and what it reads on either side. */
  lemma MarkerParts(rest: string) returns (i: nat, t: int, r: MsgRef)
    requires DecodeMarker(rest).Some?
    ensures DecodeMarker(rest) == Some(Alerted(t, r))
    ensures i < |rest| && rest[i] == '_'
    ensures ParseInt(rest[..i]) == Some(t) && DecodeRef(rest[i + 1..]) == Some(r)
  {
    i := IndexOf(rest, '_').value;
    t := ParseInt(rest[..i]).value;
    r := DecodeRef(rest[i + 1..]).value;
  }

  lemma MarkerPartsSpelling(rest: string, i: nat, t: int, r: MsgRef)
    requires i < |rest| && rest[i] == '_'
    requires ParseInt(rest[..i]) == Some(t) && DecodeRef(rest[i + 1..]) == Some(r)
    ensures rest == IntToDecimal(t) + "_" + RefText(r)
  {
    ParseIntCanonical(rest[..i], t);
    RefTextOfDecode(rest[i + 1..], r);
    assert rest == rest[..i] + "_" + rest[i + 1..];
  }

  lemma MarkerSpellingConcat(rest: string, t: int, r: MsgRef)
    requires rest == IntToDecimal(t) + "_" + RefText(r)
    ensures AlertedPrefix + rest == EncodeKey(Alerted(t, r))
  {
    ConcatAssoc(AlertedPrefix, IntToDecimal(t), "_", RefText(r));
  }

  lemma ConcatAssoc(a: string, b: string, c: string, d: string)
    ensures a + (b + c + d) == a + b + c + d
  {
  }

  /** Only the spelling `RefText` writes is read back as a reference. */
  lemma RefTextOfDecode(s: string, r: MsgRef)
    requires DecodeRef(s) == Some(r)
    ensures s == RefText(r)
  {
    if s != InitialTag {
      ParseIntCanonical(s, r.n);
    }
  }

  lemma EncodeKeyInjective(k1: Key, k2: Key)
    ensures EncodeKey(k1) == EncodeKey(k2) ==> k1 == k2
  {
    DecodeEncodeKey(k1);
    DecodeEncodeKey(k2);
  }

  lemma KeyCodec()
    ensures forall k :: DecodeKey(EncodeKey(k)) == Some(k)
    ensures forall s, k :: DecodeKey(s) == Some(k) ==> s == EncodeKey(k)
  {
    forall k ensures DecodeKey(EncodeKey(k)) == Some(k) {
      DecodeEncodeKey(k);
    }
    forall s, k | DecodeKey(s) == Some(k) ensures s == EncodeKey(k) {
      EncodeDecodeKey(s, k);
    }
  }

  /** What `json_decode(file_get_contents($mapFile), true)` yields: no file,
      something that is not a PHP array (malformed JSON, a scalar), or an
      array whose entries are keyed by strings. */
  datatype MapFile = Absent | NotAnArray | Entries(raw: map<string, Value>)

  /** The working map at start-up: a missing or non-array file gives an empty
      map without error; otherwise key `k` is present exactly when the file
      has an entry under the spelling of `k`, with that entry's value. */
  ghost function Load(f: MapFile): (m: CorrMap)
    ensures !f.Entries? ==> m == map[]
    ensures f.Entries? ==> forall k :: k in m <==> EncodeKey(k) in f.raw
    ensures f.Entries? ==> forall k | k in m :: m[k] == f.raw[EncodeKey(k)]
  {
    match f
    case Absent => map[]
    case NotAnArray => map[]
    case Entries(raw) => Decoded(raw)
  }

  /** The file's entries read as typed keys, one entry at a time; an entry
      whose key spells no `Key` is never looked up by the script. */
  ghost function Decoded(raw: map<string, Value>): (m: CorrMap)
    ensures forall k :: k in m <==> EncodeKey(k) in raw
    ensures forall k | k in m :: m[k] == raw[EncodeKey(k)]
    decreases |raw|
  {
    if raw == map[] then map[]
    else
      var s :| s in raw;
      var rest := Decoded(raw - {s});
      KeyCodec();
      match DecodeKey(s)
      case None => rest
      case Some(k) => rest[k := raw[s]]
  }

  /** `file_put_contents($mapFile, json_encode($newMap))`: the file holds
      an entry under the spelling of every key of `m`, with its value
      (`SaveOnlyKeys`: and nothing else). */
  ghost function Save(m: CorrMap): (f: MapFile)
    ensures f.Entries?
    ensures forall k | k in m :: EncodeKey(k) in f.raw && f.raw[EncodeKey(k)] == m[k]
  {
    Entries(Encoded(m))
  }

  /** Some key of a non-empty map. */
  ghost function Pick(m: CorrMap): (k: Key)
    requires m != map[]
    ensures k in m
  {
    var k :| k in m; k
  }

  /** The file's entries, added one key at a time. */
  ghost function Encoded(m: CorrMap): (raw: map<string, Value>)
    ensures forall k | k in m :: EncodeKey(k) in raw && raw[EncodeKey(k)] == m[k]
    decreases |m|
  {
    if m == map[] then map[]
    else
      var k := Pick(m);
      var rest := Encoded(m - {k});
      KeyCodec();
      rest[EncodeKey(k) := m[k]]
  }

  /** Every entry of a saved file is the spelling of a key of the map. */
  lemma SaveOnlyKeys(m: CorrMap)
    ensures forall s | s in Save(m).raw :: DecodeKey(s).Some? && DecodeKey(s).value in m
  {
    EncodedOnlyKeys(m);
  }

  lemma {:induction false} EncodedOnlyKeys(m: CorrMap)
    ensures forall s | s in Encoded(m) :: DecodeKey(s).Some? && DecodeKey(s).value in m
    decreases |m|
  {
    if m != map[] {
      var k := Pick(m);
      EncodedOnlyKeys(m - {k});
      forall s | s in Encoded(m) ensures DecodeKey(s).Some? && DecodeKey(s).value in m {
        if s == EncodeKey(k) {
          DecodeEncodeKey(k);
        }
      }
    }
  }

  /** No two entries of a map collide in the file: it has one entry per key. */
  lemma SaveSize(m: CorrMap)
    ensures |Save(m).raw| == |m|
  {
    KeyCodec();
    SaveOnlyKeys(m);
    assert Save(m).raw.Keys == set k | k in m :: EncodeKey(k);
    SizeOfInjectiveImage(m.Keys);
  }

  lemma SizeOfInjectiveImage(ks: set<Key>)
    ensures |set k | k in ks :: EncodeKey(k)| == |ks|
  {
    if ks != {} {
      var k :| k in ks;
      var rest := ks - {k};
      SizeOfInjectiveImage(rest);
      var img := set x | x in ks :: EncodeKey(x);
      var imgRest := set x | x in rest :: EncodeKey(x);
      assert img == imgRest + {EncodeKey(k)};
      if EncodeKey(k) in imgRest {
        var x :| x in rest && EncodeKey(x) == EncodeKey(k);
        EncodeKeyInjective(x, k);
      }
    }
  }

  /** Saving a map and loading the file back gives the same map. */
  lemma LoadSave(m: CorrMap)
    ensures Load(Save(m)) == m
  {
    var l := Load(Save(m));
    KeyCodec();
    SaveOnlyKeys(m);
    assert l.Keys == m.Keys;
  }

}
