/**
 * The key-value entry (`KeyValueModel`): a key, a value that `remove` can
 * clear to null, and a signed time-to-live counter; its JSON record form,
 * and the entity object whose mutators the store calls.
 */
module Model {
  import opened Wrappers
  import opened JavaText
  import Json

  /** The TTL an entry gets when no TTL is given, or when it is reset. */
  const DefaultTtl: int := 600000

  /** The persistent state of one entry: exactly the three fields that the
    * JSON record carries (`Key`, `Value`, `TTl`); the default TTL is a
    * constant of the class and is not part of a record. */
  datatype Record = Record(key: string, value: Option<string>, ttl: int)

  /** The range of a Java `long`, the declared type of the TTL. */
  predicate IsLong(i: int)
  {
    -0x8000_0000_0000_0000 <= i < 0x8000_0000_0000_0000
  }

  const KeyField: string := "{\"Key\":"
  const ValueField: string := ",\"Value\":"
  const TtlField: string := ",\"TTl\":"
  const NullText: string := "null"

  function ValueText(v: Option<string>): string
  {
    match v
    case None => NullText
    case Some(s) => Json.Quote(s)
  }

  /** The JSON record Jackson writes for an entry, fields in declaration
    * order: `{"Key":"k","Value":"v","TTl":600000}`, or `"Value":null`. */
  function Encode(r: Record): string
  {
    KeyField + (Json.Quote(r.key) + ValuePart(r.value, r.ttl))
  }

  function ValuePart(v: Option<string>, ttl: int): string
  {
    ValueField + (ValueText(v) + TtlPart(ttl))
  }

  function TtlPart(ttl: int): string
  {
    TtlField + (Json.IntToString(ttl) + "}")
  }

  predicate StartsWith(s: string, prefix: string)
  {
    |prefix| <= |s| && s[..|prefix|] == prefix
  }

  function ParseValue(s: string): Option<(Option<string>, string)>
  {
    if StartsWith(s, NullText) then Some((None, s[|NullText|..]))
    else
      match Json.ParseString(s)
      case None => None
      case Some((v, rest)) => Some((Some(v), rest))
  }

  /** `mapper.readValue(line, KeyValueModel.class)` on one line: the fields
    * `Key`, `Value` and `TTl` in that order with no white space, strings in
    * any JSON escape form, the value possibly `null`, and a TTL in decimal
    * that fits in a `long`. Anything else is refused. */
  function Decode(line: string): (r: Option<Record>)
    ensures r.Some? ==> IsLong(r.value.ttl)
  {
    if !StartsWith(line, KeyField) then None
    else
      match Json.ParseString(line[|KeyField|..])
      case None => None
      case Some((key, rest)) => DecodeValue(key, rest)
  }

  function DecodeValue(key: string, s: string): (r: Option<Record>)
    ensures r.Some? ==> r.value.key == key && IsLong(r.value.ttl)
  {
    if !StartsWith(s, ValueField) then None
    else
      match ParseValue(s[|ValueField|..])
      case None => None
      case Some((value, rest)) => DecodeTtl(key, value, rest)
  }

  function DecodeTtl(key: string, value: Option<string>, s: string): (r: Option<Record>)
    ensures r.Some? ==> r.value.key == key && r.value.value == value && IsLong(r.value.ttl)
  {
    if !StartsWith(s, TtlField) then None
    else
      var t := s[|TtlField|..];
      if t == [] || t[|t| - 1] != '}' then None
      else
        match Json.ParseInt(t[..|t| - 1])
        case None => None
        case Some(ttl) => if IsLong(ttl) then Some(Record(key, value, ttl)) else None
  }

  lemma PrefixSplit(prefix: string, rest: string)
    ensures StartsWith(prefix + rest, prefix) && (prefix + rest)[|prefix|..] == rest
  {
    assert (prefix + rest)[..|prefix|] == prefix;
  }

  lemma DecodeTtlRoundTrip(key: string, value: Option<string>, ttl: int)
    ensures DecodeTtl(key, value, TtlPart(ttl)) == if IsLong(ttl) then Some(Record(key, value, ttl)) else None
  {
    var t := Json.IntToString(ttl) + "}";
    PrefixSplit(TtlField, t);
    assert t[..|t| - 1] == Json.IntToString(ttl);
    Json.IntRoundTrip(ttl);
  }

  lemma DecodeValueRoundTrip(key: string, value: Option<string>, ttl: int)
    ensures DecodeValue(key, ValuePart(value, ttl)) == if IsLong(ttl) then Some(Record(key, value, ttl)) else None
  {
    var rest := TtlPart(ttl);
    PrefixSplit(ValueField, ValueText(value) + rest);
    match value {
      case None =>
        PrefixSplit(NullText, rest);
      case Some(v) =>
        assert (Json.Quote(v) + rest)[0] == '"' != NullText[0];
        assert !StartsWith(Json.Quote(v) + rest, NullText);
        Json.QuoteRoundTrip(v, rest);
    }
    DecodeTtlRoundTrip(key, value, ttl);
  }

  /** Every record whose TTL fits in a `long` survives the trip through its
    * JSON line, all three fields intact; one whose TTL does not is refused,
    * as Jackson refuses to read such a number into a `long`. */
  lemma EncodeDecode(r: Record)
    ensures Decode(Encode(r)) == if IsLong(r.ttl) then Some(r) else None
  {
    var rest := ValuePart(r.value, r.ttl);
    PrefixSplit(KeyField, Json.Quote(r.key) + rest);
    Json.QuoteRoundTrip(r.key, rest);
    DecodeValueRoundTrip(r.key, r.value, r.ttl);
  }

  /** The reader takes forms the writer never produces, as Jackson's does:
    * `\/` for '/', `\u0041` for 'A', and `-0` for 0. */
  lemma DecodeOtherForms()
    ensures Decode(KeyField + ("\"\\/\"" + (ValueField + ("\"\\u0041\"" + (TtlField + "-0}")))))
      == Some(Record("/", Some("A"), 0))
  {
    var ttlText := TtlField + "-0}";
    var t := ttlText[|TtlField|..];
    PrefixSplit(TtlField, "-0}");
    assert t[..|t| - 1] == "-0";
    assert Json.ParseInt("-0") == Some(0) by {
      assert "-0"[1..] == "0";
    }
    assert DecodeTtl("/", Some("A"), ttlText) == Some(Record("/", Some("A"), 0));
    var valueText := "\"\\u0041\"" + ttlText;
    Json.ReadsUnicodeEscape(ttlText);
    assert !StartsWith(valueText, NullText) by { assert valueText[0] != NullText[0]; }
    PrefixSplit(ValueField, valueText);
    assert DecodeValue("/", ValueField + valueText) == Some(Record("/", Some("A"), 0));
    var keyText := "\"\\/\"" + (ValueField + valueText);
    Json.ReadsSlashEscape(ValueField + valueText);
    PrefixSplit(KeyField, keyText);
  }

  /** A TTL of the largest `long` is read back; one more is refused, as
    * Jackson refuses a number that does not fit the field. */
  lemma DecodeLongBoundary(key: string, value: Option<string>)
    ensures Decode(Encode(Record(key, value, 0x7FFF_FFFF_FFFF_FFFF))) == Some(Record(key, value, 0x7FFF_FFFF_FFFF_FFFF))
    ensures Decode(Encode(Record(key, value, 0x8000_0000_0000_0000))) == None
    ensures Decode(Encode(Record(key, value, -0x8000_0000_0000_0000))) == Some(Record(key, value, -0x8000_0000_0000_0000))
    ensures Decode(Encode(Record(key, value, -0x8000_0000_0000_0001))) == None
  {
    EncodeDecode(Record(key, value, 0x7FFF_FFFF_FFFF_FFFF));
    EncodeDecode(Record(key, value, 0x8000_0000_0000_0000));
    EncodeDecode(Record(key, value, -0x8000_0000_0000_0000));
    EncodeDecode(Record(key, value, -0x8000_0000_0000_0001));
  }

  lemma TtlPartNoLineBreak(ttl: int)
    ensures NoLineBreak(TtlPart(ttl))
  {
    Json.IntToStringNoLineBreak(ttl);
  }

  lemma ValuePartNoLineBreak(v: Option<string>, ttl: int)
    ensures NoLineBreak(ValuePart(v, ttl))
  {
    TtlPartNoLineBreak(ttl);
    if v.Some? {
      Json.QuoteNoLineBreak(v.value);
    }
  }

  /** A record fits on one line, so a line-per-record file can hold it. */
  lemma EncodeNoLineBreak(r: Record)
    ensures NoLineBreak(Encode(r))
  {
    ValuePartNoLineBreak(r.value, r.ttl);
    Json.QuoteNoLineBreak(r.key);
  }

  /** `KeyValueModel`: the entity object. The store materialises one from a
    * record when it fetches an entry by key and writes its record back when
    * it saves it. */
  class Entry {
    var key: string
    var value: Option<string>
    var ttl: int

    /** `KeyValueModel(key, value)`: the TTL starts at the default. */
    constructor (key: string, value: Option<string>)
      ensures this.key == key && this.value == value && ttl == DefaultTtl
    {
      this.key := key;
      this.value := value;
      ttl := DefaultTtl;
    }

    /** `KeyValueModel(key, value, ttl)`: all three fields as given. */
    constructor WithTtl(key: string, value: Option<string>, ttl: int)
      ensures this.key == key && this.value == value && this.ttl == ttl
    {
      this.key := key;
      this.value := value;
      this.ttl := ttl;
    }

    function ToRecord(): Record
      reads this
    {
      Record(key, value, ttl)
    }

    method SetValue(value: Option<string>)
      modifies this
      ensures this.value == value
      ensures key == old(key) && ttl == old(ttl)
    {
      this.value := value;
    }

    method SetTtl(ttl: int)
      modifies this
      ensures this.ttl == ttl
      ensures key == old(key) && value == old(value)
    {
      this.ttl := ttl;
    }

    method ResetTtl()
      modifies this
      ensures ttl == DefaultTtl
      ensures key == old(key) && value == old(value)
    {
      ttl := DefaultTtl;
    }

    /** Counts the TTL down by `n` and reports whether it has run out. */
    method CheckTtl(n: int) returns (expired: bool)
      modifies this
      ensures ttl == old(ttl) - n
      ensures expired <==> ttl <= 0
      ensures key == old(key) && value == old(value)
    {
      ttl := ttl - n;
      expired := ttl <= 0;
    }

    /** `toString`: the entry's JSON record, one line that reads back as this
      * entry's key, value and TTL whenever the TTL fits in a `long`. */
    function ToString(): (s: string)
      reads this
      ensures IsLong(ttl) ==> Decode(s) == Some(ToRecord())
      ensures !IsLong(ttl) ==> Decode(s) == None
      ensures NoLineBreak(s)
    {
      EncodeDecode(ToRecord());
      EncodeNoLineBreak(ToRecord());
      Encode(ToRecord())
    }
  }
}
