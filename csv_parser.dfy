/**
 * The order-line rules of CSVParser (src/csv_parser.cpp): the std::getline
 * split, validate_line, the decoding of parse_order_line, the line loop of
 * read_orders and the side encoding of format_order. Text is a string; the
 * library number conversions (stoi, stod, stoll) and the number renderers are
 * parameters that may fail or produce any text.
 */
module Csv {
  import opened Options
  import opened Orders

  /** Index of the first d in s, or |s| when there is none. */
  function IndexOfChar(s: string, d: char): (j: nat)
    ensures j <= |s|
  {
    if s == [] || s[0] == d then 0 else 1 + IndexOfChar(s[1..], d)
  }

  /** IndexOfChar finds the first d: none before it, and d at it unless it is |s|. */
  lemma {:induction false} IndexOfCharFirst(s: string, d: char)
    ensures forall i :: 0 <= i < IndexOfChar(s, d) ==> s[i] != d
    ensures IndexOfChar(s, d) < |s| ==> s[IndexOfChar(s, d)] == d
  {
    if s != [] && s[0] != d {
      IndexOfCharFirst(s[1..], d);
    }
  }

  /** Any index with the property of the first d is the one IndexOfChar finds. */
  lemma IndexOfCharIs(s: string, d: char, j: nat)
    requires j <= |s|
    requires forall i :: 0 <= i < j ==> s[i] != d
    requires j < |s| ==> s[j] == d
    ensures IndexOfChar(s, d) == j
  {
    IndexOfCharFirst(s, d);
  }

  /**
   * The fields that repeated std::getline(stream, field, d) extracts from s:
   * each call takes the text up to the next d and consumes the d; a call at
   * the end of the stream fails. So "" gives no field and a final d opens no
   * empty last field, while a d elsewhere ends a field that may be empty.
   */
  function Split(s: string, d: char): (fields: seq<string>)
    ensures s == [] <==> fields == []
    decreases |s|
  {
    if s == [] then []
    else
      var j := IndexOfChar(s, d);
      if j == |s| then [s] else [s[..j]] + Split(s[j + 1..], d)
  }

  /** No field holds the delimiter. */
  lemma {:induction false} SplitFieldsFreeOfDelimiter(s: string, d: char)
    ensures forall i :: 0 <= i < |Split(s, d)| ==> d !in Split(s, d)[i]
    decreases |s|
  {
    if s != [] {
      var j := IndexOfChar(s, d);
      IndexOfCharFirst(s, d);
      if j < |s| {
        var rest := Split(s[j + 1..], d);
        SplitFieldsFreeOfDelimiter(s[j + 1..], d);
        assert Split(s, d) == [s[..j]] + rest;
        forall i | 0 <= i < |Split(s, d)| ensures d !in Split(s, d)[i] {
          if i > 0 {
            assert Split(s, d)[i] == rest[i - 1];
          }
        }
      } else {
        assert Split(s, d) == [s];
      }
    }
  }

  /** The fields written back with d between consecutive ones. */
  function Join(fields: seq<string>, d: char): string {
    if fields == [] then []
    else if |fields| == 1 then fields[0]
    else fields[0] + [d] + Join(fields[1..], d)
  }

  /** Joining with d adds no character other than d. */
  lemma {:induction false} JoinAvoids(fields: seq<string>, d: char, c: char)
    requires c != d && forall i :: 0 <= i < |fields| ==> c !in fields[i]
    ensures c !in Join(fields, d)
    decreases |fields|
  {
    if |fields| > 1 {
      JoinAvoids(fields[1..], d, c);
    }
  }

  /** A field free of d followed by d splits off as the first field. */
  lemma SplitCons(f: string, d: char, rest: string)
    requires d !in f
    ensures Split(f + [d] + rest, d) == [f] + Split(rest, d)
  {
    var s := f + [d] + rest;
    assert forall i :: 0 <= i < |f| ==> s[i] != d by {
      forall i | 0 <= i < |f| ensures s[i] != d {
        assert s[i] == f[i];
      }
    }
    IndexOfCharIs(s, d, |f|);
    assert s[..|f|] == f;
    assert s[|f| + 1..] == rest;
  }

  /** Splitting undoes joining, for fields free of d whose last one is not empty. */
  lemma {:induction false} SplitJoin(fields: seq<string>, d: char)
    requires fields == [] || fields[|fields| - 1] != []
    requires forall i :: 0 <= i < |fields| ==> d !in fields[i]
    ensures Split(Join(fields, d), d) == fields
    decreases |fields|
  {
    if |fields| == 1 {
      IndexOfCharIs(fields[0], d, |fields[0]|);
      assert Split(fields[0], d) == [fields[0]];
    } else if |fields| > 1 {
      var rest := Join(fields[1..], d);
      assert Join(fields, d) == fields[0] + [d] + rest;
      SplitCons(fields[0], d, rest);
      SplitJoin(fields[1..], d);
      assert fields == [fields[0]] + fields[1..];
    }
  }

  /** Joining undoes splitting, for text that does not end in d. */
  lemma {:induction false} JoinSplit(s: string, d: char)
    requires s == [] || s[|s| - 1] != d
    ensures Join(Split(s, d), d) == s
    decreases |s|
  {
    if s != [] {
      var j := IndexOfChar(s, d);
      IndexOfCharFirst(s, d);
      if j < |s| {
        var rest := s[j + 1..];
        assert rest != [] && rest[|rest| - 1] == s[|s| - 1];
        JoinSplit(rest, d);
        assert s == s[..j] + [d] + rest;
      }
    }
  }

  /** A single d at the end of non-empty text adds no field. */
  lemma {:induction false} SplitTrailingDelimiter(s: string, d: char)
    requires s != [] && s[|s| - 1] != d
    ensures Split(s + [d], d) == Split(s, d)
    decreases |s|
  {
    var t := s + [d];
    var j := IndexOfChar(s, d);
    IndexOfCharFirst(s, d);
    IndexOfCharIs(t, d, j);
    if j < |s| {
      var rest := s[j + 1..];
      assert rest != [] && rest[|rest| - 1] == s[|s| - 1];
      assert t[..j] == s[..j];
      assert t[j + 1..] == rest + [d] by {
        forall k | 0 <= k < |rest| + 1 ensures t[j + 1..][k] == (rest + [d])[k] {
          if k < |rest| {
            assert t[j + 1 + k] == s[j + 1 + k];
          }
        }
      }
      SplitTrailingDelimiter(rest, d);
    } else {
      assert t[..j] == s && t[j + 1..] == [];
    }
  }

  /**
   * One std::getline(stream, field, d) call on a stream positioned at pos:
   * the field up to the next d, and the position after that d.
   */
  method GetLine(s: string, pos: nat, d: char) returns (field: string, next: nat)
    requires pos < |s|
    ensures pos < next <= |s|
    ensures Split(s[pos..], d) == [field] + Split(s[next..], d)
  {
    var j := pos;
    while j < |s| && s[j] != d
      invariant pos <= j <= |s|
      invariant forall k :: pos <= k < j ==> s[k] != d
    {
      j := j + 1;
    }
    field := s[pos..j];
    next := if j < |s| then j + 1 else j;
    SplitAt(s, pos, j, d);
  }

  /** The text from pos splits into its run up to the first d at or after pos, then the rest past that d. */
  lemma SplitAt(s: string, pos: nat, j: nat, d: char)
    requires pos < |s| && pos <= j <= |s|
    requires forall k :: pos <= k < j ==> s[k] != d
    requires j < |s| ==> s[j] == d
    ensures Split(s[pos..], d) == [s[pos..j]] + Split(s[if j < |s| then j + 1 else j..], d)
  {
    var t := s[pos..];
    assert forall i :: 0 <= i < j - pos ==> t[i] != d by {
      forall i | 0 <= i < j - pos ensures t[i] != d {
        assert t[i] == s[pos + i];
      }
    }
    IndexOfCharIs(t, d, j - pos);
    assert t[..j - pos] == s[pos..j];
    if j < |s| {
      assert t[j - pos + 1..] == s[j + 1..];
    } else {
      assert t == s[pos..j];
      assert s[j..] == [];
    }
  }

  /** The getline loop of parse_order_line: every field of s, in order. */
  method SplitFields(s: string, d: char) returns (fields: seq<string>)
    ensures fields == Split(s, d)
  {
    fields := [];
    var pos := 0;
    assert s[pos..] == s;
    while pos < |s|
      invariant pos <= |s|
      invariant Split(s, d) == fields + Split(s[pos..], d)
    {
      var field;
      field, pos := GetLine(s, pos, d);
      fields := fields + [field];
    }
  }

  /** What validate_line accepts: a non-empty line of exactly five non-empty fields. */
  predicate WellShaped(line: string) {
    var fields := Split(line, ',');
    line != [] && |fields| == 5 && forall i :: 0 <= i < |fields| ==> fields[i] != []
  }

  /**
   * validate_line: rejects the empty line, returns false at the first empty
   * field, and otherwise accepts exactly when five fields were counted.
   */
  method ValidateLine(line: string) returns (ok: bool)
    ensures ok == WellShaped(line)
  {
    if line == [] {
      return false;
    }
    var pos, fieldCount := 0, 0;
    ghost var seen: seq<string> := [];
    assert line[pos..] == line;
    while pos < |line|
      invariant pos <= |line|
      invariant Split(line, ',') == seen + Split(line[pos..], ',')
      invariant fieldCount == |seen|
      invariant forall i :: 0 <= i < |seen| ==> seen[i] != []
    {
      var field;
      field, pos := GetLine(line, pos, ',');
      if field == [] {
        assert Split(line, ',')[|seen|] == [];
        return false;
      }
      seen := seen + [field];
      fieldCount := fieldCount + 1;
    }
    return fieldCount == 5;
  }

  /** "1,2,3,4,5," passes as "1,2,3,4,5" does: one trailing comma is not a sixth field. */
  lemma TrailingCommaAccepted(line: string)
    requires line != [] && line[|line| - 1] != ','
    ensures WellShaped(line + [',']) == WellShaped(line)
  {
    SplitTrailingDelimiter(line, ',');
  }

  /** Two commas in a row leave an empty field, wherever they stand in the text. */
  lemma {:induction false} DoubledCommaGivesEmptyField(a: string, b: string)
    ensures [] in Split(a + [','] + [','] + b, ',')
    decreases |a|
  {
    var s := a + [','] + [','] + b;
    var j := IndexOfChar(a, ',');
    IndexOfCharFirst(a, ',');
    if j == |a| {
      assert forall i :: 0 <= i < |a| ==> s[i] == a[i];
      IndexOfCharIs(s, ',', |a|);
      var t := s[|a| + 1..];
      IndexOfCharIs(t, ',', 0);
      assert Split(s, ',')[1] == Split(t, ',')[0] == [];
    } else {
      var rest := a[j + 1..];
      DoubledCommaGivesEmptyField(rest, b);
      assert s == a[..j] + [','] + (rest + [','] + [','] + b);
      assert ',' !in a[..j];
      SplitCons(a[..j], ',', rest + [','] + [','] + b);
    }
  }

  /** A line with two commas in a row anywhere, or a leading comma, has an empty field and is rejected. */
  lemma EmptyFieldRejected(a: string, b: string)
    ensures !WellShaped(a + [','] + [','] + b)
    ensures !WellShaped([','] + b)
  {
    DoubledCommaGivesEmptyField(a, b);
    IndexOfCharIs([','] + b, ',', 0);
  }

  /** The library conversions, each of which may throw (None). */
  datatype NumberParsers = NumberParsers(
    toInt: string -> Option<int>,    // std::stoi
    toReal: string -> Option<real>,  // std::stod
    toLong: string -> Option<int>)   // std::stoll

  /** The side field: buy exactly for "1" and "true". */
  predicate DecodeSide(field: string) {
    field == "1" || field == "true"
  }

  /** format_order's side field. */
  function EncodeSide(isBuy: bool): (field: string)
    ensures DecodeSide(field) == isBuy
  {
    if isBuy then "1" else "0"
  }

  /**
   * The try block of parse_order_line on five fields: the order they build,
   * or None when a conversion throws.
   */
  function Decode(line: string, num: NumberParsers): (r: Option<Order>)
    ensures r.Some? ==> |Split(line, ',')| == 5 && (r.value.isBuy <==> DecodeSide(Split(line, ',')[3]))
  {
    var fields := Split(line, ',');
    if |fields| != 5 then None
    else
      match (num.toInt(fields[0]), num.toReal(fields[1]), num.toInt(fields[2]), num.toLong(fields[4]))
      case (Some(id), Some(price), Some(quantity), Some(timestamp)) =>
        Some(Order(id, price, quantity, DecodeSide(fields[3]), timestamp))
      case _ => None
  }

  /**
   * parse_order_line: splits on ',', fails unless there are five fields,
   * converts them, assigns the built order to the out-parameter and returns
   * whether it is valid; a conversion failure returns false with the
   * out-parameter untouched.
   */
  method ParseOrderLine(line: string, num: NumberParsers, order: Order) returns (ok: bool, result: Order)
    ensures Decode(line, num).None? ==> !ok && result == order
    ensures Decode(line, num).Some? ==> result == Decode(line, num).value && ok == result.IsValid()
  {
    var fields := SplitFields(line, ',');
    if |fields| != 5 {
      return false, order;
    }
    var id, price, quantity := num.toInt(fields[0]), num.toReal(fields[1]), num.toInt(fields[2]);
    if id.None? || price.None? || quantity.None? {
      return false, order;
    }
    var isBuy := fields[3] == "1" || fields[3] == "true";
    var timestamp := num.toLong(fields[4]);
    if timestamp.None? {
      return false, order;
    }
    result := Order(id.value, price.value, quantity.value, isBuy, timestamp.value);
    ok := result.IsValid();
  }

  /** The order read_orders keeps from one line, if any. */
  function Accept(line: string, num: NumberParsers): (r: Option<Order>)
    ensures r.Some? ==> WellShaped(line) && r == Decode(line, num) && r.value.IsValid()
  {
    if !WellShaped(line) then None
    else match Decode(line, num)
      case Some(o) => if o.IsValid() then Some(o) else None
      case None => None
  }

  /** A kept line is five non-empty fields whose decoding is a valid order of the side field 3 names. */
  lemma AcceptedLine(line: string, num: NumberParsers)
    requires Accept(line, num).Some?
    ensures var fields, o := Split(line, ','), Accept(line, num).value;
            && |fields| == 5 && (forall i :: 0 <= i < 5 ==> fields[i] != [])
            && o.IsValid()
            && Some(o.id) == num.toInt(fields[0]) && Some(o.price) == num.toReal(fields[1])
            && Some(o.quantity) == num.toInt(fields[2]) && Some(o.timestamp) == num.toLong(fields[4])
            && (o.isBuy <==> fields[3] == "1" || fields[3] == "true")
  {
  }

  /** The order kept from one line, as a sequence of at most one. */
  function Kept(line: string, num: NumberParsers): seq<Order> {
    match Accept(line, num)
    case Some(o) => [o]
    case None => []
  }

  /** The orders kept from the given lines, in their order. */
  function AcceptAll(lines: seq<string>, num: NumberParsers): seq<Order>
  {
    if lines == [] then []
    else
      AcceptAll(lines[..|lines| - 1], num) + Kept(lines[|lines| - 1], num)
  }

  /** At most one order per line is kept, and every kept order is valid. */
  lemma {:induction false} AcceptAllValid(lines: seq<string>, num: NumberParsers)
    ensures |AcceptAll(lines, num)| <= |lines|
    ensures forall i :: 0 <= i < |AcceptAll(lines, num)| ==> AcceptAll(lines, num)[i].IsValid()
  {
    if lines != [] {
      AcceptAllValid(lines[..|lines| - 1], num);
    }
  }

  lemma AcceptAllSnoc(lines: seq<string>, line: string, num: NumberParsers)
    ensures AcceptAll(lines + [line], num)
            == AcceptAll(lines, num) + Kept(line, num)
  {
    assert (lines + [line])[..|lines|] == lines;
  }

  /** A line that validates is kept exactly when parse_order_line succeeds, as the order it built. */
  lemma KeptLine(line: string, num: NumberParsers, parsed: bool, order: Order)
    requires WellShaped(line)
    requires Decode(line, num).None? ==> !parsed
    requires Decode(line, num).Some? ==> order == Decode(line, num).value && parsed == order.IsValid()
    ensures Accept(line, num) == if parsed then Some(order) else None
  {
  }

  /**
   * The body of read_orders' loop for one line: skip it unless it validates,
   * parse it into a fresh zero order and append the order when parsing succeeds.
   */
  method KeepLine(line: string, num: NumberParsers, orders: seq<Order>) returns (result: seq<Order>)
    ensures result == orders + Kept(line, num)
  {
    result := orders;
    var valid := ValidateLine(line);
    if !valid {
      return;
    }
    var order := Order(0, 0.0, 0, false, 0);
    var parsed;
    parsed, order := ParseOrderLine(line, num, order);
    KeptLine(line, num, parsed, order);
    if parsed {
      result := result + [order];
    }
  }

  /** The lines after the header line. */
  function Body(lines: seq<string>): seq<string> {
    if lines == [] then [] else lines[1..]
  }

  /**
   * read_orders on a file's text: the first line is skipped as the header and
   * every later line that validates and parses is appended to the orders
   * already there, in file order.
   */
  method ReadOrders(text: string, num: NumberParsers, orders: seq<Order>) returns (result: seq<Order>)
    ensures result == orders + AcceptAll(Body(Split(text, '\n')), num)
  {
    result := orders;
    var pos := 0;
    ghost var lines: seq<string> := [];
    if pos < |text| {
      var header;
      header, pos := GetLine(text, pos, '\n');
      assert text[0..] == text;
      SkipHeader(Split(text, '\n'), header, Split(text[pos..], '\n'));
    }
    while pos < |text|
      invariant pos <= |text|
      invariant Body(Split(text, '\n')) == lines + Split(text[pos..], '\n')
      invariant result == orders + AcceptAll(lines, num)
    {
      pos, result, lines := ReadNextLine(text, pos, num, orders, lines, result);
    }
    assert text[pos..] == [];
    assert Body(Split(text, '\n')) == lines + [] == lines;
  }

  /**
   * One pass of read_orders' loop: getline reads the next line, which is
   * kept when it validates and parses; the lines read so far grow by it.
   */
  method ReadNextLine(text: string, pos: nat, num: NumberParsers, orders: seq<Order>, ghost lines: seq<string>, sofar: seq<Order>)
    returns (next: nat, result: seq<Order>, ghost read: seq<string>)
    requires pos < |text|
    requires Body(Split(text, '\n')) == lines + Split(text[pos..], '\n')
    requires sofar == orders + AcceptAll(lines, num)
    ensures pos < next <= |text|
    ensures Body(Split(text, '\n')) == read + Split(text[next..], '\n')
    ensures result == orders + AcceptAll(read, num)
  {
    var line;
    line, next := GetLine(text, pos, '\n');
    NextLine(Body(Split(text, '\n')), lines, Split(text[pos..], '\n'), line, Split(text[next..], '\n'));
    AcceptAllSnoc(lines, line, num);
    result := KeepLine(line, num, sofar);
    read := lines + [line];
  }

  /** Skipping the header line leaves the lines after it. */
  lemma SkipHeader(all: seq<string>, header: string, rest: seq<string>)
    requires all == [header] + rest
    ensures Body(all) == rest
  {
    assert all[1..] == rest;
  }

  /** Reading one more line moves it from the unread lines to the lines read. */
  lemma NextLine(body: seq<string>, lines: seq<string>, unread: seq<string>, line: string, rest: seq<string>)
    requires body == lines + unread && unread == [line] + rest
    ensures body == (lines + [line]) + rest
  {
  }

  /** The number renderers of format_order: integers, and prices with two decimals. */
  datatype Renderers = Renderers(integer: int -> string, fixed2: real -> string)

  /** The five fields of format_order: id, price, quantity, side "1"/"0" and timestamp. */
  function FormatFields(o: Order, show: Renderers): seq<string> {
    [show.integer(o.id), show.fixed2(o.price), show.integer(o.quantity), EncodeSide(o.isBuy), show.integer(o.timestamp)]
  }

  /** format_order: the five fields with a comma between consecutive ones. */
  function FormatOrder(o: Order, show: Renderers): (line: string)
    ensures var fields := FormatFields(o, show);
            (forall i :: 0 <= i < 5 ==> ',' !in fields[i]) && fields[4] != [] ==> Split(line, ',') == fields
  {
    var fields := FormatFields(o, show);
    if (forall i :: 0 <= i < 5 ==> ',' !in fields[i]) && fields[4] != [] then
      SplitJoin(fields, ',');
      Join(fields, ',')
    else
      Join(fields, ',')
  }

  /** Renderings that read back: non-empty, free of ',' and '\n', and inverted by the conversions. */
  predicate ReadsBack(o: Order, show: Renderers, num: NumberParsers, price: real) {
    var texts := [show.integer(o.id), show.fixed2(o.price), show.integer(o.quantity), show.integer(o.timestamp)];
    && (forall i :: 0 <= i < 4 ==> texts[i] != [] && ',' !in texts[i] && '\n' !in texts[i])
    && num.toInt(texts[0]) == Some(o.id)
    && num.toReal(texts[1]) == Some(price)
    && num.toInt(texts[2]) == Some(o.quantity)
    && num.toLong(texts[3]) == Some(o.timestamp)
  }

  /**
   * A formatted order reads back: its line has five non-empty fields, the
   * side decodes to the order's own side, and read_orders keeps it, with the
   * price as the conversion reads it back, exactly when that order is valid.
   */
  lemma FormatThenParse(o: Order, show: Renderers, num: NumberParsers, price: real)
    requires ReadsBack(o, show, num, price)
    ensures var line := FormatOrder(o, show);
            && WellShaped(line)
            && Decode(line, num) == Some(o.(price := price))
            && Accept(line, num) == (if o.(price := price).IsValid() then Some(o.(price := price)) else None)
            && '\n' !in line
  {
    var line, fields := FormatOrder(o, show), FormatFields(o, show);
    assert forall i :: 0 <= i < 5 ==> ',' !in fields[i] && '\n' !in fields[i] && fields[i] != [] by {
      assert fields[3] == "1" || fields[3] == "0";
    }
    SplitJoin(fields, ',');
    JoinAvoids(fields, ',', '\n');
    DecodeFields(line, num, fields, o.(price := price));
  }

  /** Five fields that convert decode to the order they spell. */
  lemma DecodeFields(line: string, num: NumberParsers, fields: seq<string>, o: Order)
    requires Split(line, ',') == fields && |fields| == 5
    requires num.toInt(fields[0]) == Some(o.id) && num.toReal(fields[1]) == Some(o.price)
    requires num.toInt(fields[2]) == Some(o.quantity) && num.toLong(fields[4]) == Some(o.timestamp)
    requires DecodeSide(fields[3]) == o.isBuy
    ensures Decode(line, num) == Some(o)
  {
  }

}
