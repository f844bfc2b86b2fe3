/**
 * The order-history exporter: it scrolls the order list until the page
 * height stops changing, then reads every order card (identifier, date,
 * total, status, item name, quantity), converts the 12-hour clock time to a
 * 24-hour one, strips the fields and writes them as comma-separated lines.
 * Each card is given as the texts its DOM lookups would return.
 */
module OrderCsv {
  import opened Common
  import opened Text
  import opened Csv

  // ---------------------------------------------------------------- date pattern

  /** The groups of `(\d+)\s+(\w+)\s+(\d+)\s+(\d+:\d+)(AM|PM)`, with the white
      space the pattern skips between them. */
  datatype DateMatch = DateMatch(
    day: string, gap1: string,
    month: string, gap2: string,
    year: string, gap3: string,
    hours: string, minutes: string,
    pm: bool)

  function Period(pm: bool): string {
    if pm then "PM" else "AM"
  }

  /** The seven groups up to the colon, in order. */
  function Groups(m: DateMatch): seq<string> {
    [m.day, m.gap1, m.month, m.gap2, m.year, m.gap3, m.hours]
  }

  /** The classes of those groups: `\d+ \s+ \w+ \s+ \d+ \s+ \d+`. */
  const GroupClasses: seq<CharClass> := [Digit, Space, Word, Space, Digit, Space, Digit]

  /** The text a match covers. */
  function Covered(m: DateMatch): string {
    Concat(Groups(m)) + (":" + (m.minutes + Period(m.pm)))
  }

  /** Every group is non-empty and made of its pattern's class. */
  predicate WellFormed(m: DateMatch) {
    && |m.day| >= 1 && AllIn(Digit, m.day)
    && |m.gap1| >= 1 && AllIn(Space, m.gap1)
    && |m.month| >= 1 && AllIn(Word, m.month)
    && |m.gap2| >= 1 && AllIn(Space, m.gap2)
    && |m.year| >= 1 && AllIn(Digit, m.year)
    && |m.gap3| >= 1 && AllIn(Space, m.gap3)
    && |m.hours| >= 1 && AllIn(Digit, m.hours)
    && |m.minutes| >= 1 && AllIn(Digit, m.minutes)
  }

  /** A date in the pattern's shape is written out at `p`. */
  predicate Written(s: string, p: nat, m: DateMatch) {
    WellFormed(m) && At(s, p, Covered(m))
  }

  /** `:\d+(AM|PM)` tried at `i`: the minutes and whether the period is PM. */
  function ClockTail(s: string, i: nat): (r: Option<(string, bool)>)
    ensures r.Some? ==> |r.value.0| >= 1 && AllIn(Digit, r.value.0)
  {
    if i >= |s| || s[i] != ':' then None
    else
      var minutes := Run(s, i + 1, Digit);
      var j := i + 1 + |minutes|;
      if minutes == [] then None
      else if At(s, j, "AM") || At(s, j, "PM") then Some((minutes, At(s, j, "PM")))
      else None
  }

  /** Groups of the classes `ks` followed by a clock tail, tried at `p`. */
  function DateWith(s: string, p: nat, ks: seq<CharClass>): (r: Option<DateMatch>)
    requires p <= |s| && |ks| == 7
  {
    match Scan(s, p, ks)
    case None => None
    case Some((g, end)) =>
      match ClockTail(s, end)
      case None => None
      case Some((minutes, pm)) => Some(DateMatch(g[0], g[1], g[2], g[3], g[4], g[5], g[6], minutes, pm))
  }

  /** The pattern tried at `p`. Every quantified run is followed by a
      character outside its class (a digit run by white space, `:` or a
      letter of AM/PM; white space by a word character; a word by white
      space), so backtracking never shortens a run: each group is the
      greedy run at its position. */
  function DateAt(s: string, p: nat): (r: Option<DateMatch>)
    requires p <= |s|
    ensures r.Some? ==> WellFormed(r.value)
  {
    DateWith(s, p, GroupClasses)
  }

  /** The leftmost position at or after `from` where the pattern matches. */
  function FindDate(s: string, from: nat): (r: Option<nat>)
    ensures r.Some? ==> from <= r.value <= |s| && DateAt(s, r.value).Some?
    ensures r.Some? ==> forall q: nat :: from <= q < r.value ==> !DateAt(s, q).Some?
    ensures r.None? ==> forall q: nat :: from <= q <= |s| ==> !DateAt(s, q).Some?
    decreases |s| - from
  {
    if from > |s| then None
    else if DateAt(s, from).Some? then Some(from)
    else FindDate(s, from + 1)
  }

  /** `dateStr.match(...)`: the groups of the first match, if any. */
  function OrderDate(text: string): (r: Option<DateMatch>)
    ensures r.Some? ==> WellFormed(r.value)
  {
    match FindDate(text, 0)
    case None => None
    case Some(p) => DateAt(text, p)
  }

  lemma GroupsWellFormed(m: DateMatch)
    requires WellFormed(m)
    ensures |Groups(m)| == |GroupClasses| == 7
    ensures forall j :: 0 <= j < 7 ==> |Groups(m)[j]| >= 1 && AllIn(GroupClasses[j], Groups(m)[j])
    ensures forall j :: 0 <= j < 6 ==> !In(GroupClasses[j], Groups(m)[j + 1][0])
  {
    var g := Groups(m);
    forall j | 0 <= j < 6 ensures !In(GroupClasses[j], g[j + 1][0]) {
      var c := g[j + 1][0];
      if j % 2 == 0 {
        assert In(Space, c);
        assert !In(GroupClasses[j], c);
      } else {
        assert In(Word, c);
        assert !In(Space, c);
      }
    }
  }

  /** A clock tail written at `i` is what `ClockTail` reads there. */
  lemma ClockTailOf(s: string, i: nat, minutes: string, pm: bool)
    requires |minutes| >= 1 && AllIn(Digit, minutes)
    requires At(s, i, ":" + (minutes + Period(pm)))
    ensures ClockTail(s, i) == Some((minutes, pm))
  {
    AtConcat(s, i, ":", minutes + Period(pm));
    AtConcat(s, i + 1, minutes, Period(pm));
    var j := i + 1 + |minutes|;
    assert s[j] == Period(pm)[0];
    Peel(s, i + 1, Digit, minutes);
  }

  lemma ClockTailWritten(s: string, i: nat)
    requires ClockTail(s, i).Some?
    ensures At(s, i, ":" + (ClockTail(s, i).value.0 + Period(ClockTail(s, i).value.1)))
  {
    var (minutes, pm) := ClockTail(s, i).value;
    assert At(s, i, ":");
    assert At(s, i + 1, minutes);
    assert At(s, i + 1 + |minutes|, Period(pm));
    AtConcat(s, i + 1, minutes, Period(pm));
    AtConcat(s, i, ":", minutes + Period(pm));
  }

  /** A date written out at `p` is what the pattern matches there. */
  lemma WrittenMatches(s: string, p: nat, m: DateMatch)
    requires Written(s, p, m)
    ensures p <= |s| && DateAt(s, p) == Some(m)
  {
    GroupsFit(s, p, m);
    var i7 := p + |Concat(Groups(m))|;
    ScanOf(s, p, GroupClasses, Groups(m));
    ClockTailOf(s, i7, m.minutes, m.pm);
    DateWithOf(s, p, GroupClasses, m, i7);
  }

  /** The groups of a written date fit the pattern's classes, and the clock
      tail follows them. */
  lemma GroupsFit(s: string, p: nat, m: DateMatch)
    requires Written(s, p, m)
    ensures Fits(s, p, GroupClasses, Groups(m))
    ensures At(s, p + |Concat(Groups(m))|, ":" + (m.minutes + Period(m.pm)))
  {
    var g := Groups(m);
    var tail := ":" + (m.minutes + Period(m.pm));
    GroupsWellFormed(m);
    AtSplit(s, p, Concat(g), tail);
    var i7 := p + |Concat(g)|;
    AtChar(s, i7, tail, 0);
    assert s[i7] == ':' && GroupClasses[6] == Digit;
  }

  lemma DateWithOf(s: string, p: nat, ks: seq<CharClass>, m: DateMatch, end: nat)
    requires p <= |s| && |ks| == 7
    requires Scan(s, p, ks) == Some((Groups(m), end))
    requires ClockTail(s, end) == Some((m.minutes, m.pm))
    ensures DateWith(s, p, ks) == Some(m)
  {
  }

  lemma CoveredAt(s: string, p: nat, m: DateMatch, end: nat)
    requires At(s, p, Concat(Groups(m))) && end == p + |Concat(Groups(m))|
    requires At(s, end, ":" + (m.minutes + Period(m.pm)))
    ensures At(s, p, Covered(m))
  {
    AtJoin(s, p, Concat(Groups(m)), ":" + (m.minutes + Period(m.pm)));
  }

  /** A match is made of the groups `Scan` took and the clock tail after them. */
  lemma MatchParts(s: string, p: nat, ks: seq<CharClass>)
    requires p <= |s| && |ks| == 7 && DateWith(s, p, ks).Some?
    ensures Scan(s, p, ks).Some?
    ensures Scan(s, p, ks).value.0 == Groups(DateWith(s, p, ks).value)
    ensures ClockTail(s, Scan(s, p, ks).value.1)
         == Some((DateWith(s, p, ks).value.minutes, DateWith(s, p, ks).value.pm))
  {
    var sc := Scan(s, p, ks);
    assert sc.Some?;
    var g := sc.value.0;
    var ct := ClockTail(s, sc.value.1);
    assert ct.Some?;
    var m := DateWith(s, p, ks).value;
    assert m == DateMatch(g[0], g[1], g[2], g[3], g[4], g[5], g[6], ct.value.0, ct.value.1);
    assert Groups(m) == [g[0], g[1], g[2], g[3], g[4], g[5], g[6]];
    assert |g| == 7;
  }

  /** What the pattern matches at `p` is a date written out there. */
  lemma MatchWritten(s: string, p: nat)
    requires p <= |s| && DateAt(s, p).Some?
    ensures Written(s, p, DateAt(s, p).value)
  {
    var m := DateAt(s, p).value;
    MatchParts(s, p, GroupClasses);
    var (g, end) := Scan(s, p, GroupClasses).value;
    ClockTailWritten(s, end);
    CoveredAt(s, p, m, end);
  }

  /** The date is missing exactly when no date in the pattern's shape is
      written anywhere in the text. */
  lemma OrderDateAbsent(text: string)
    ensures OrderDate(text).None? <==> forall p: nat, m :: !Written(text, p, m)
  {
    if exists p: nat, m :: Written(text, p, m) {
      var p: nat, m :| Written(text, p, m);
      WrittenMatches(text, p, m);
    } else if FindDate(text, 0).Some? {
      MatchWritten(text, FindDate(text, 0).value);
    }
  }

  /** The groups reported are those of the first date written in the text. */
  lemma OrderDateLeftmost(text: string, p: nat, m: DateMatch)
    requires Written(text, p, m)
    requires forall q: nat, m' :: q < p ==> !Written(text, q, m')
    ensures OrderDate(text) == Some(m)
  {
    WrittenMatches(text, p, m);
    var found := FindDate(text, 0);
    assert found.Some? && found.value <= p;
    if found.value < p {
      MatchWritten(text, found.value);
      assert false;
    }
  }

  // ---------------------------------------------------------------- 24-hour clock

  /** The hour conversion: `PM` adds twelve unless the hour is 12, and
      `12 AM` becomes hour 0; every other hour is kept as it is. */
  function To24(h: nat, pm: bool): nat {
    if pm && h != 12 then h + 12
    else if !pm && h == 12 then 0
    else h
  }

  /** The 12-hour reading of a 24-hour hour: the reference the conversion
      is checked against. */
  function From24(t: nat): (r: (nat, bool))
    requires t < 24
  {
    (if t % 12 == 0 then 12 else t % 12, t >= 12)
  }

  /** On clock hours 1 to 12 the conversion is the inverse of `From24`: it
      lands in 0..23 and loses nothing. */
  lemma To24RoundTrip(h: nat, pm: bool)
    requires 1 <= h <= 12
    ensures To24(h, pm) < 24
    ensures From24(To24(h, pm)) == (h, pm)
  {
  }

  /** Every hour of the day is reached, from exactly one clock reading. */
  lemma From24RoundTrip(t: nat)
    requires t < 24
    ensures 1 <= From24(t).0 <= 12
    ensures To24(From24(t).0, From24(t).1) == t
  {
  }

  /** `hours.toString().padStart(2, '0')` */
  function HourText(t: nat): string {
    PadStart2(NatToString(t))
  }

  /** The hour text is at least two digits and reads back as the hour. */
  lemma HourTextValue(t: nat)
    ensures |HourText(t)| >= 2 && AllIn(Digit, HourText(t))
    ensures DigitsValue(HourText(t)) == t
    ensures t < 100 ==> |HourText(t)| == 2
  {
    var n := NatToString(t);
    NatToStringValue(t);
    if |n| == 1 {
      LeadingZeroValue(n);
    }
  }

  /** `day.padStart(2, '0')` keeps the day's value. */
  lemma DayTextValue(day: string)
    requires |day| >= 1 && AllIn(Digit, day)
    ensures |PadStart2(day)| >= 2 && AllIn(Digit, PadStart2(day))
    ensures DigitsValue(PadStart2(day)) == DigitsValue(day)
  {
    if |day| == 1 {
      LeadingZeroValue(day);
    }
  }

  /** `timeStr.split(':')`: the time text splits into the hour and minute groups. */
  lemma TimeSplit(m: DateMatch)
    requires WellFormed(m)
    ensures Split(m.hours + ":" + m.minutes, ':') == [m.hours, m.minutes]
  {
    NotIn(Digit, m.hours, ':');
    NotIn(Digit, m.minutes, ':');
    SplitAfterFirst(m.hours, m.minutes, ':');
    SplitJoin([m.minutes], ':');
  }

  /** The date column: `DD-month-year HH:MM` with the hour on the 24-hour clock. */
  function FormatOrderDate(m: DateMatch): string
    requires AllIn(Digit, m.hours)
  {
    var hour := To24(DigitsValue(m.hours), m.pm);
    PadStart2(m.day) + "-" + m.month + "-" + m.year + " " + HourText(hour) + ":" + m.minutes
  }

  /** Reading a date column back: the day's value, the month, the year, the
      hour's value and the minutes, or nothing when the text is not in that
      shape. */
  function ReadOrderDate(f: string): Option<(nat, string, string, nat, string)> {
    var parts := Split(f, '-');
    if |parts| != 3 then None
    else
      var rest := Split(parts[2], ' ');
      if |rest| != 2 then None
      else
        var clock := Split(rest[1], ':');
        if |clock| != 2 || !AllIn(Digit, parts[0]) || !AllIn(Digit, clock[0]) then None
        else Some((DigitsValue(parts[0]), parts[1], rest[0], DigitsValue(clock[0]), clock[1]))
  }

  /** `d-mo-y h:mi` splits back into its parts when the digit fields and the
      word hold no separator. */
  lemma DateTextSplits(d: string, mo: string, y: string, h: string, mi: string)
    requires AllIn(Digit, d) && AllIn(Word, mo) && AllIn(Digit, y) && AllIn(Digit, h) && AllIn(Digit, mi)
    ensures Split(d + "-" + mo + "-" + y + " " + h + ":" + mi, '-') == [d, mo, y + " " + h + ":" + mi]
    ensures Split(y + " " + h + ":" + mi, ' ') == [y, h + ":" + mi]
    ensures Split(h + ":" + mi, ':') == [h, mi]
  {
    var clock := h + ":" + mi;
    NotIn(Digit, h, ':');
    NotIn(Digit, mi, ':');
    SplitPair(h, mi, ':');
    NotIn(Digit, h, ' ');
    NotIn(Digit, mi, ' ');
    NotIn(Digit, y, ' ');
    assert ' ' !in clock;
    SplitPair(y, clock, ' ');
    assert y + " " + h + ":" + mi == y + " " + clock;
    DashSplits(d, mo, y, h, mi);
  }

  lemma DashSplits(d: string, mo: string, y: string, h: string, mi: string)
    requires AllIn(Digit, d) && AllIn(Word, mo) && AllIn(Digit, y) && AllIn(Digit, h) && AllIn(Digit, mi)
    ensures Split(d + "-" + mo + "-" + y + " " + h + ":" + mi, '-') == [d, mo, y + " " + h + ":" + mi]
  {
    var rest := y + " " + h + ":" + mi;
    NotIn(Digit, y, '-');
    NotIn(Digit, h, '-');
    NotIn(Digit, mi, '-');
    NotIn(Digit, d, '-');
    NotIn(Word, mo, '-');
    assert '-' !in rest;
    SplitTriple(d, mo, rest, '-');
    Regroup(d + "-" + mo + "-", y, h, mi);
  }

  /** `a` + `sep` + `b` + `sep` + `c` splits into the three when none holds `sep`. */
  lemma SplitTriple(a: string, b: string, c: string, sep: char)
    requires sep !in a && sep !in b && sep !in c
    ensures Split(a + [sep] + b + [sep] + c, sep) == [a, b, c]
  {
    var head := a + [sep];
    var tail := b + [sep] + c;
    SplitPair(b, c, sep);
    SplitAfterFirst(a, tail, sep);
    AppendAssoc(head, b, [sep]);
    AppendAssoc(head, b + [sep], c);
  }

  /** The date column reads back as the matched day, month, year and
      minutes, with the hour converted to the 24-hour clock. */
  lemma FormatOrderDateReads(m: DateMatch)
    requires WellFormed(m)
    ensures ReadOrderDate(FormatOrderDate(m))
         == Some((DigitsValue(m.day), m.month, m.year, To24(DigitsValue(m.hours), m.pm), m.minutes))
  {
    var hour := To24(DigitsValue(m.hours), m.pm);
    HourTextValue(hour);
    DayTextValue(m.day);
    DateTextSplits(PadStart2(m.day), m.month, m.year, HourText(hour), m.minutes);
  }

  // ---------------------------------------------------------------- fields

  /** The texts the DOM lookups of one order card return. */
  datatype OrderCard = OrderCard(
    idText: string, dateText: string, totalText: string,
    statusText: string, itemText: string, quantityText: string)

  const TotalLabel := "Total: "

  /** `.trim().replace('Total: ', '')` */
  function TotalText(raw: string): string {
    ReplaceFirst(Trim(raw), TotalLabel)
  }

  /** The label is dropped when the trimmed text begins with it, and a text
      without it anywhere is left as trimmed. */
  lemma TotalTextSpec(raw: string)
    ensures StartsWith(Trim(raw), TotalLabel) ==> TotalText(raw) == Trim(raw)[|TotalLabel|..]
    ensures !Contains(Trim(raw), TotalLabel) ==> TotalText(raw) == Trim(raw)
  {
    if StartsWith(Trim(raw), TotalLabel) {
      ReplaceFirstPrefix(Trim(raw), TotalLabel);
    }
    ReplaceFirstSpec(Trim(raw), TotalLabel);
  }

  /** `.trim().replace('x', '')`: only the first `x` goes. */
  function QuantityText(raw: string): string {
    ReplaceFirst(Trim(raw), "x")
  }

  lemma QuantityTextSpec(raw: string)
    ensures StartsWith(Trim(raw), "x") ==> QuantityText(raw) == Trim(raw)[1..]
    ensures !Contains(Trim(raw), "x") ==> QuantityText(raw) == Trim(raw)
  {
    if StartsWith(Trim(raw), "x") {
      ReplaceFirstPrefix(Trim(raw), "x");
    }
    ReplaceFirstSpec(Trim(raw), "x");
  }

  /** `.trim().replace(/,/g, '')` */
  function ItemName(raw: string): string {
    RemoveAll(Trim(raw), ',')
  }

  /** The item name has no comma and keeps every other character of the
      trimmed text, in order: it is the comma-separated pieces of the trimmed
      text written end to end. */
  lemma ItemNameSpec(raw: string)
    ensures ',' !in ItemName(raw)
    ensures forall c :: c != ',' ==> multiset(ItemName(raw))[c] == multiset(Trim(raw))[c]
    ensures ',' !in Trim(raw) ==> ItemName(raw) == Trim(raw)
    ensures ItemName(raw) == Concat(Split(Trim(raw), ','))
  {
    RemoveAllPieces(Trim(raw), ',');
  }

  /** The six columns of a card whose date matched as `m`. */
  function Columns(card: OrderCard, m: DateMatch): (r: seq<string>)
    requires AllIn(Digit, m.hours)
    ensures |r| == 6 && ',' !in r[4]
  {
    [Trim(card.idText), FormatOrderDate(m), TotalText(card.totalText),
     Trim(card.statusText), ItemName(card.itemText), QuantityText(card.quantityText)]
  }

  /** The six columns of one card, or nothing when its date text does not
      match the pattern (the script then throws and the export stops). */
  function OrderFields(card: OrderCard): (r: Option<seq<string>>)
    ensures r.None? <==> OrderDate(Trim(card.dateText)).None?
    ensures r.Some? ==> |r.value| == 6 && ',' !in r.value[4]
  {
    match OrderDate(Trim(card.dateText))
    case None => None
    case Some(m) => Some(Columns(card, m))
  }

  /** `orders.forEach(...)`: one row per card in page order; the first card
      whose date does not match aborts the whole export. */
  function BuildRows(cards: seq<OrderCard>): (r: Option<seq<seq<string>>>)
    ensures r.Some? ==> |r.value| == |cards|
    ensures r.Some? ==> forall i :: 0 <= i < |cards| ==> OrderFields(cards[i]) == Some(r.value[i])
  {
    AllPresent(seq(|cards|, i requires 0 <= i < |cards| => OrderFields(cards[i])))
  }

  /** The rows are missing exactly when some card's date does not match. */
  lemma BuildRowsFails(cards: seq<OrderCard>)
    ensures BuildRows(cards).None? <==> exists i :: 0 <= i < |cards| && OrderDate(Trim(cards[i].dateText)).None?
  {
    var xs := seq(|cards|, i requires 0 <= i < |cards| => OrderFields(cards[i]));
    AllPresentFails(xs);
    if exists i :: 0 <= i < |cards| && OrderDate(Trim(cards[i].dateText)).None? {
      var i :| 0 <= i < |cards| && OrderDate(Trim(cards[i].dateText)).None?;
      assert xs[i].None?;
    }
  }

  // ---------------------------------------------------------------- the file

  const OrderHeader: seq<string> := ["Order ID", "Date", "Total", "Status", "Item Name", "Quantity"]

  const OrdersFileName := "shopback_orders.csv"

  /** `csvRows.map(row => row.join(',')).join('\n')`: no quoting at all. */
  function OrdersText(rows: seq<seq<string>>): string {
    Join(seq(|rows|, i requires 0 <= i < |rows| => Join(rows[i], ',')), '\n')
  }

  /** Reading the text back by splitting lines and then commas. */
  function ReadOrdersText(text: string): seq<seq<string>> {
    var lines := Split(text, '\n');
    seq(|lines|, i requires 0 <= i < |lines| => Split(lines[i], ','))
  }

  /** No field holds a comma or a line break. */
  predicate FieldsPlain(rows: seq<seq<string>>) {
    forall i, j :: 0 <= i < |rows| && 0 <= j < |rows[i]| ==> ',' !in rows[i][j] && '\n' !in rows[i][j]
  }

  /** The download, or nothing when a card's date does not match (the error
      is caught and reported, and no file is written). */
  function DownloadOrders(cards: seq<OrderCard>): (r: Option<CsvFile>)
    ensures r.Some? ==> r.value.name == OrdersFileName
  {
    match BuildRows(cards)
    case None => None
    case Some(rows) => Some(CsvFile(OrdersFileName, OrdersText([OrderHeader] + rows)))
  }

  /** A row of non-empty fields joined by commas reads back as the row. */
  lemma RowRoundTrip(row: seq<string>)
    requires |row| >= 1 && forall j :: 0 <= j < |row| ==> ',' !in row[j] && '\n' !in row[j]
    ensures Split(Join(row, ','), ',') == row
    ensures '\n' !in Join(row, ',')
    decreases |row|
  {
    SplitJoin(row, ',');
    JoinFree(row, ',', '\n');
  }

  /** A join of parts free of `c` is free of `c` when the separator differs. */
  lemma {:induction false} JoinFree(parts: seq<string>, sep: char, c: char)
    requires sep != c && forall j :: 0 <= j < |parts| ==> c !in parts[j]
    ensures c !in Join(parts, sep)
    decreases |parts|
  {
    if |parts| > 1 {
      JoinFree(parts[1..], sep, c);
    }
  }

  /** When no field holds a comma or a line break, the text splits back into
      exactly the rows and fields written. */
  lemma OrdersTextRoundTrip(rows: seq<seq<string>>)
    requires |rows| >= 1 && forall i :: 0 <= i < |rows| ==> |rows[i]| >= 1
    requires FieldsPlain(rows)
    ensures ReadOrdersText(OrdersText(rows)) == rows
  {
    var lines := seq(|rows|, i requires 0 <= i < |rows| => Join(rows[i], ','));
    forall i | 0 <= i < |rows|
      ensures '\n' !in lines[i] && Split(lines[i], ',') == rows[i]
    {
      RowRoundTrip(rows[i]);
    }
    SplitJoin(lines, '\n');
  }

  /** A line shows as many columns as its row has fields exactly when no
      field holds a comma. */
  lemma RowColumns(row: seq<string>)
    requires |row| >= 1
    ensures |Split(Join(row, ','), ',')| == |row| <==> forall j :: 0 <= j < |row| ==> ',' !in row[j]
  {
    SplitJoinCount(row, ',');
  }

  /** The export: it fails exactly when some card's date text does not match;
      otherwise the file is the header line followed by one line per card. */
  lemma DownloadOrdersSpec(cards: seq<OrderCard>)
    ensures DownloadOrders(cards).None? <==>
              exists i :: 0 <= i < |cards| && OrderDate(Trim(cards[i].dateText)).None?
    ensures DownloadOrders(cards).Some? ==>
              var rows := BuildRows(cards).value;
              && DownloadOrders(cards).value.content == OrdersText([OrderHeader] + rows)
              && |Split(DownloadOrders(cards).value.content, '\n')| >= |cards| + 1
  {
    BuildRowsFails(cards);
    if BuildRows(cards).Some? {
      var rows := [OrderHeader] + BuildRows(cards).value;
      var lines := seq(|rows|, i requires 0 <= i < |rows| => Join(rows[i], ','));
      JoinCount(lines, '\n');
      SplitCount(Join(lines, '\n'), '\n');
    }
  }

  // ---------------------------------------------------------------- scrolling

  /** The page height before measurement `i`: 0 before the first scroll. */
  function Before(heights: seq<int>, i: nat): int
    requires i <= |heights|
  {
    if i == 0 then 0 else heights[i - 1]
  }

  /** `loadAllOrders`: scroll to the bottom, measure, and stop at the first
      measurement equal to the one before it. `heights` are the successive
      measurements; the result is the index of the stopping one, or nothing
      when the given measurements never repeat. */
  method ScrollUntilStable(heights: seq<int>) returns (stop: Option<nat>)
    ensures stop.Some? ==> stop.value < |heights| && heights[stop.value] == Before(heights, stop.value)
    ensures stop.Some? ==> forall j :: 0 <= j < stop.value ==> heights[j] != Before(heights, j)
    ensures stop.None? ==> forall j :: 0 <= j < |heights| ==> heights[j] != Before(heights, j)
  {
    var previous := 0;
    var i := 0;
    while i < |heights|
      invariant 0 <= i <= |heights|
      invariant previous == Before(heights, i)
      invariant forall j :: 0 <= j < i ==> heights[j] != Before(heights, j)
    {
      var current := heights[i];
      if current == previous {
        return Some(i);
      }
      previous := current;
      i := i + 1;
    }
    return None;
  }
}
