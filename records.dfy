/** One line of the pipe-delimited fails-to-deliver file:
    SETTLEMENT DATE|CUSIP|SYMBOL|QUANTITY (FAILS)|DESCRIPTION|PRICE. */
module Records {
  import opened Wrappers
  import opened Text
  import opened Calendar

  /** The reference price as the parser leaves it: the cleaned text float() accepted,
      or the 0.0 it falls back to. The float value itself is not modelled. */
  datatype Price = DefaultZero | Quoted(text: string)

  datatype FailRecord = FailRecord(settlementDate: Date, cusip: string, symbol: string, quantity: int, price: Price)

  /** float() accepts it, taken as: an optional sign, then digits with at most one '.', at least one digit. */
  predicate IsDecimalText(s: string)
  {
    var body := if s != [] && (s[0] == '+' || s[0] == '-') then s[1..] else s;
    && (forall i :: 0 <= i < |body| ==> IsDigit(body[i]) || body[i] == '.')
    && (forall i, j :: 0 <= i < j < |body| && body[i] == '.' ==> body[j] != '.')
    && (exists i :: 0 <= i < |body| && IsDigit(body[i]))
  }

  /** Field 5 with thousands separators removed and whitespace stripped; blank or
      unparsable text gives the default zero, never a rejection. */
  function ParsePrice(field: string): (p: Price)
    ensures Strip(RemoveChar(field, ',')) == [] ==> p == DefaultZero
    ensures p.Quoted? ==> IsDecimalText(p.text) && p.text != [] && ',' !in p.text
    ensures var t := Strip(RemoveChar(field, ','));
      && (t != [] && IsDecimalText(t) ==> p == Quoted(t))
      && (!(t != [] && IsDecimalText(t)) ==> p == DefaultZero)
  {
    var t := Strip(RemoveChar(field, ','));
    if t != [] && IsDecimalText(t) then Quoted(t) else DefaultZero
  }

  /** _try_parse_raw_line: rejects (None) an empty line, a line without '|', fewer than six
      fields, a settlement date that does not parse, a quantity (commas removed) that is not
      an integer or is not positive, and an empty stripped symbol. */
  function TryParseRawLine(line: string): (r: Option<FailRecord>)
    ensures r.Some? ==> var parts := Split(line, '|');
      && |parts| >= 6
      && InPythonRange(r.value.settlementDate)
      && FormatDate8(r.value.settlementDate) == Strip(parts[0])
      && r.value.quantity > 0
      && r.value.symbol != [] && r.value.symbol == Strip(parts[2]) && '|' !in r.value.symbol
      && r.value.cusip == Strip(parts[1]) && '|' !in r.value.cusip
      && r.value.price == ParsePrice(parts[5])
      && ParseDate8(Strip(parts[0])) == Some(r.value.settlementDate)
      && ParseInt(Strip(RemoveChar(parts[3], ','))) == Some(r.value.quantity)
    ensures line == [] || '|' !in line || |Split(line, '|')| < 6 ==> r.None?
    ensures line != [] && '|' in line && |Split(line, '|')| >= 6 ==>
      var parts := Split(line, '|');
      var qty := ParseInt(Strip(RemoveChar(parts[3], ',')));
      (ParseDate8(Strip(parts[0])).None? || qty.None? || qty.value <= 0 || Strip(parts[2]) == []) ==> r.None?
  {
    if line == [] || '|' !in line then None
    else
      var parts := Split(line, '|');
      if |parts| < 6 then None
      else
        match ParseDate8(Strip(parts[0]))
        case None => None
        case Some(d) =>
          match ParseInt(Strip(RemoveChar(parts[3], ',')))
          case None => None
          case Some(qty) =>
            if qty <= 0 then None
            else
              var symbol := Strip(parts[2]);
              if symbol == [] then None
              else
                FormatParseDate8(Strip(parts[0]));
                Some(FailRecord(d, Strip(parts[1]), symbol, qty, ParsePrice(parts[5])))
  }

  // ---------- the writer side, as the partner of the parser ----------

  predicate Unpadded(s: string) { s == [] || (!IsSpace(s[0]) && !IsSpace(s[|s| - 1])) }

  /** A record a well-formed report line can carry. */
  predicate WellFormedRecord(r: FailRecord)
  {
    && InPythonRange(r.settlementDate)
    && '|' !in r.cusip && Unpadded(r.cusip)
    && r.symbol != [] && '|' !in r.symbol && Unpadded(r.symbol)
    && r.quantity > 0
    && (r.price.Quoted? ==> IsDecimalText(r.price.text) && r.price.text != [] && ',' !in r.price.text)
  }

  function PriceText(p: Price): string
  {
    if p.Quoted? then p.text else ""
  }

  /** The report line for a record; the description column is free text without '|'. */
  function FormatRawLine(r: FailRecord, description: string): string
    requires WellFormedRecord(r)
  {
    Join(RawFields(r, description), '|')
  }

  lemma DigitsHaveNoSpaceOrComma(s: string)
    requires AllDigits(s)
    ensures forall i :: 0 <= i < |s| ==> !IsSpace(s[i]) && s[i] != ',' && s[i] != '|'
  {
  }

  lemma DecimalTextPlain(s: string)
    requires IsDecimalText(s)
    ensures forall i :: 0 <= i < |s| ==> !IsSpace(s[i]) && s[i] != '|'
  {
    var signed := s != [] && (s[0] == '+' || s[0] == '-');
    var body := if signed then s[1..] else s;
    forall i | 0 <= i < |s| ensures !IsSpace(s[i]) && s[i] != '|' {
      if signed && i > 0 {
        assert s[i] == body[i - 1];
        assert IsDigit(body[i - 1]) || body[i - 1] == '.';
      } else if !signed {
        assert IsDigit(body[i]) || body[i] == '.';
      }
    }
  }

  function RawFields(r: FailRecord, description: string): (fields: seq<string>)
    requires WellFormedRecord(r)
    ensures |fields| == 6
  {
    [FormatDate8(r.settlementDate), r.cusip, r.symbol, NatToDecimal(r.quantity), description, PriceText(r.price)]
  }

  lemma RawFieldsPipeFree(r: FailRecord, description: string)
    requires WellFormedRecord(r) && '|' !in description
    ensures forall i :: 0 <= i < 6 ==> '|' !in RawFields(r, description)[i]
  {
    DigitsHaveNoSpaceOrComma(FormatDate8(r.settlementDate));
    DigitsHaveNoSpaceOrComma(NatToDecimal(r.quantity));
    if r.price.Quoted? { DecimalTextPlain(r.price.text); }
  }

  /** The accepting path of TryParseRawLine, given the value of each field. */
  lemma AcceptedLine(line: string, d: Date, qty: int)
    requires line != [] && '|' in line && |Split(line, '|')| >= 6
    requires ParseDate8(Strip(Split(line, '|')[0])) == Some(d)
    requires ParseInt(Strip(RemoveChar(Split(line, '|')[3], ','))) == Some(qty) && qty > 0
    requires Strip(Split(line, '|')[2]) != []
    ensures var parts := Split(line, '|');
      TryParseRawLine(line) == Some(FailRecord(d, Strip(parts[1]), Strip(parts[2]), qty, ParsePrice(parts[5])))
  {
  }

  /** Splitting a written line at '|' gives back its six columns. */
  lemma {:induction false} SplitFormattedLine(r: FailRecord, description: string)
    requires WellFormedRecord(r) && '|' !in description
    ensures var line := FormatRawLine(r, description);
      && line != [] && '|' in line
      && Split(line, '|') == RawFields(r, description)
  {
    RawFieldsPipeFree(r, description);
    SplitJoin(RawFields(r, description), '|');
    JoinHasSeparator(RawFields(r, description), '|');
  }

  /** The date column of a written line reads back as the settlement date. */
  lemma DateColumnReadBack(r: FailRecord, description: string)
    requires WellFormedRecord(r)
    ensures ParseDate8(Strip(RawFields(r, description)[0])) == Some(r.settlementDate)
  {
    var t := FormatDate8(r.settlementDate);
    DigitsHaveNoSpaceOrComma(t);
    StripNoop(t);
    ParseFormatDate8(r.settlementDate);
  }

  /** The CUSIP and symbol columns read back unchanged: they carry no outer whitespace. */
  lemma NameColumnsReadBack(r: FailRecord, description: string)
    requires WellFormedRecord(r)
    ensures Strip(RawFields(r, description)[1]) == r.cusip && Strip(RawFields(r, description)[2]) == r.symbol
  {
    var fields := RawFields(r, description);
    assert fields[1] == r.cusip && fields[2] == r.symbol;
    StripUnpadded(r.cusip);
    StripUnpadded(r.symbol);
  }

  /** The quantity column, written without separators, reads back as the quantity. */
  lemma QuantityColumnReadBack(r: FailRecord, description: string)
    requires WellFormedRecord(r)
    ensures ParseInt(Strip(RemoveChar(RawFields(r, description)[3], ','))) == Some(r.quantity)
  {
    var t := NatToDecimal(r.quantity);
    DigitsHaveNoSpaceOrComma(t);
    assert ',' !in t;
    StripNoop(t);
    ParseIntOfDecimal(r.quantity);
  }

  /** The price column reads back as the price: its text, or the default zero from an empty column. */
  lemma PriceColumnReadBack(r: FailRecord, description: string)
    requires WellFormedRecord(r)
    ensures ParsePrice(RawFields(r, description)[5]) == r.price
  {
    if r.price.Quoted? {
      DecimalTextPlain(r.price.text);
      StripNoop(r.price.text);
    } else {
      assert Strip(RemoveChar("", ',')) == [];
    }
  }

  /** A line whose columns read as the record's values is accepted as that record. */
  lemma AcceptedFields(line: string, fields: seq<string>, r: FailRecord)
    requires line != [] && '|' in line && Split(line, '|') == fields && |fields| >= 6
    requires ParseDate8(Strip(fields[0])) == Some(r.settlementDate)
    requires Strip(fields[1]) == r.cusip && Strip(fields[2]) == r.symbol && r.symbol != []
    requires ParseInt(Strip(RemoveChar(fields[3], ','))) == Some(r.quantity) && r.quantity > 0
    requires ParsePrice(fields[5]) == r.price
    ensures TryParseRawLine(line) == Some(r)
  {
    AcceptedLine(line, r.settlementDate, r.quantity);
  }

  /** Parsing the line written for a well-formed record gives that record back. */
  lemma {:induction false} ParseFormatRawLine(r: FailRecord, description: string)
    requires WellFormedRecord(r) && '|' !in description
    ensures TryParseRawLine(FormatRawLine(r, description)) == Some(r)
  {
    SplitFormattedLine(r, description);
    DateColumnReadBack(r, description);
    NameColumnsReadBack(r, description);
    QuantityColumnReadBack(r, description);
    PriceColumnReadBack(r, description);
    AcceptedFields(FormatRawLine(r, description), RawFields(r, description), r);
  }

  /** The price column never decides acceptance: replacing it changes only the price. */
  lemma {:induction false} PriceNeverRejects(fields: seq<string>, price: string)
    requires |fields| >= 6 && '|' !in price
    requires forall i :: 0 <= i < |fields| ==> '|' !in fields[i]
    ensures var before := TryParseRawLine(Join(fields, '|'));
      var after := TryParseRawLine(Join(fields[5 := price], '|'));
      && after.Some? == before.Some?
      && (after.Some? ==> after.value == before.value.(price := ParsePrice(price)))
  {
    var fields' := fields[5 := price];
    var line, line' := Join(fields, '|'), Join(fields', '|');
    SplitJoin(fields, '|');
    SplitJoin(fields', '|');
    JoinHasSeparator(fields, '|');
    JoinHasSeparator(fields', '|');
    var before, after := TryParseRawLine(line), TryParseRawLine(line');
    if before.Some? {
      AcceptedFields(line', fields', before.value.(price := ParsePrice(price)));
    } else if after.Some? {
      AcceptedFields(line, fields, after.value.(price := ParsePrice(fields[5])));
    }
  }

  lemma {:induction false} JoinHasSeparator(fields: seq<string>, sep: char)
    requires |fields| >= 2
    ensures Join(fields, sep) != [] && sep in Join(fields, sep)
  {
    assert Join(fields, sep)[|fields[0]|] == sep;
  }
}
