/**
 * The cashback-table exporter: it reads the rows of ShopBack's cashback
 * table page by page, turns each transaction row into a record (date,
 * identifier, confirmation date, vendor, type, amounts, status) and writes
 * the records as comma-separated text. The page and its rows are the input;
 * every DOM lookup is replaced by the text it would return.
 */
module CashbackTable {
  import opened Common
  import opened Text
  import opened Csv

  // ---------------------------------------------------------------- type

  /** The transaction types `determineTransactionType` can return. */
  datatype TxType = GiftCard | Bonus | Referral | Challenge | Purchase

  function Label(t: TxType): string {
    match t
    case GiftCard => "Gift Card"
    case Bonus => "Bonus"
    case Referral => "Referral"
    case Challenge => "Challenge"
    case Purchase => "Purchase"
  }

  /** The labels name the types one-to-one and each can stand verbatim in a
      comma-separated line. */
  lemma LabelsDistinct(a: TxType, b: TxType)
    ensures Label(a) == Label(b) <==> a == b
    ensures PlainSafe(Label(a))
  {
    CharsSafe("Gift Card");
    CharsSafe("Bonus");
    CharsSafe("Referral");
    CharsSafe("Challenge");
    CharsSafe("Purchase");
    if a != b {
      assert Label(a)[0] != Label(b)[0] || |Label(a)| != |Label(b)|;
    }
  }

  /** The type of a transaction from its description and identifier: the
      voucher marker, then a description starting with "Code used:", then the
      words "Referral" and "Challenge", then a non-empty identifier starting
      with "AU_" or "Code used:"; anything else is a purchase. */
  function DetermineType(description: string, id: string): TxType {
    if Contains(description, "ShopBack Vouchers:") then GiftCard
    else if StartsWith(description, "Code used:") then Bonus
    else if Contains(description, "Referral") then Referral
    else if Contains(description, "Challenge") then Challenge
    else if id != "" && (StartsWith(id, "AU_") || StartsWith(id, "Code used:")) then Bonus
    else Purchase
  }

  /** One test a classification rule applies. */
  datatype Test =
    | DescriptionHas(text: string)
    | DescriptionBegins(text: string)
    | IdBegins(text: string)

  predicate Passes(t: Test, description: string, id: string) {
    match t
    case DescriptionHas(p) => Contains(description, p)
    case DescriptionBegins(p) => StartsWith(description, p)
    case IdBegins(p) => StartsWith(id, p)
  }

  /** A rule gives its verdict when any one of its tests passes. */
  datatype Rule = Rule(tests: seq<Test>, verdict: TxType)

  predicate Fires(rule: Rule, description: string, id: string) {
    exists i :: 0 <= i < |rule.tests| && Passes(rule.tests[i], description, id)
  }

  /** The classification as a table of rules tried in order. */
  const Rules: seq<Rule> := [
    Rule([DescriptionHas("ShopBack Vouchers:")], GiftCard),
    Rule([DescriptionBegins("Code used:")], Bonus),
    Rule([DescriptionHas("Referral")], Referral),
    Rule([DescriptionHas("Challenge")], Challenge),
    Rule([IdBegins("AU_"), IdBegins("Code used:")], Bonus)
  ]

  /** The verdict of the first rule that fires; a purchase when none does. */
  function FirstFiring(rules: seq<Rule>, description: string, id: string): TxType {
    if |rules| == 0 then Purchase
    else if Fires(rules[0], description, id) then rules[0].verdict
    else FirstFiring(rules[1..], description, id)
  }

  /** The first rule that fires decides; with none firing the verdict is a
      purchase. */
  lemma {:induction false} FirstFiringSpec(rules: seq<Rule>, description: string, id: string)
    ensures (forall i :: 0 <= i < |rules| ==> !Fires(rules[i], description, id))
      ==> FirstFiring(rules, description, id) == Purchase
    ensures forall i ::
              0 <= i < |rules| && Fires(rules[i], description, id)
              && (forall j :: 0 <= j < i ==> !Fires(rules[j], description, id))
              ==> FirstFiring(rules, description, id) == rules[i].verdict
    decreases |rules|
  {
    if |rules| > 0 {
      FirstFiringSpec(rules[1..], description, id);
      forall i | 0 <= i < |rules| && Fires(rules[i], description, id)
        && (forall j :: 0 <= j < i ==> !Fires(rules[j], description, id))
        ensures FirstFiring(rules, description, id) == rules[i].verdict
      {
        if i > 0 {
          assert !Fires(rules[0], description, id);
          assert rules[1..][i - 1] == rules[i];
          forall j | 0 <= j < i - 1 ensures !Fires(rules[1..][j], description, id) {
            assert rules[1..][j] == rules[j + 1];
          }
        }
      }
      if forall i :: 0 <= i < |rules| ==> !Fires(rules[i], description, id) {
        forall j | 0 <= j < |rules| - 1 ensures !Fires(rules[1..][j], description, id) {
          assert rules[1..][j] == rules[j + 1];
        }
      }
    }
  }

  /** A rule with a single test fires exactly when that test passes. */
  lemma SingleTest(rule: Rule, description: string, id: string)
    requires |rule.tests| == 1
    ensures Fires(rule, description, id) <==> Passes(rule.tests[0], description, id)
  {
    if Passes(rule.tests[0], description, id) {
      assert 0 < |rule.tests|;
    }
  }

  /** When each rule of the table fires. */
  lemma RulesFire(d: string, x: string)
    ensures Fires(Rules[0], d, x) <==> Contains(d, "ShopBack Vouchers:")
    ensures Fires(Rules[1], d, x) <==> StartsWith(d, "Code used:")
    ensures Fires(Rules[2], d, x) <==> Contains(d, "Referral")
    ensures Fires(Rules[3], d, x) <==> Contains(d, "Challenge")
    ensures Fires(Rules[4], d, x) <==> StartsWith(x, "AU_") || StartsWith(x, "Code used:")
  {
    SingleTest(Rules[0], d, x);
    SingleTest(Rules[1], d, x);
    SingleTest(Rules[2], d, x);
    SingleTest(Rules[3], d, x);
    assert Rules[4].tests == [IdBegins("AU_"), IdBegins("Code used:")];
    if StartsWith(x, "AU_") { assert Passes(Rules[4].tests[0], d, x); }
    if StartsWith(x, "Code used:") { assert Passes(Rules[4].tests[1], d, x); }
  }

  /** The chain of checks classifies exactly as the rule table does. */
  lemma DetermineTypeByRules(description: string, id: string)
    ensures DetermineType(description, id) == FirstFiring(Rules, description, id)
  {
    var d, x := description, id;
    RulesFire(d, x);
    FirstFiringSpec(Rules, d, x);
    if Fires(Rules[0], d, x) {
      assert FirstFiring(Rules, d, x) == Rules[0].verdict;
    } else if Fires(Rules[1], d, x) {
      assert FirstFiring(Rules, d, x) == Rules[1].verdict;
    } else if Fires(Rules[2], d, x) {
      assert FirstFiring(Rules, d, x) == Rules[2].verdict;
    } else if Fires(Rules[3], d, x) {
      assert FirstFiring(Rules, d, x) == Rules[3].verdict;
    } else if Fires(Rules[4], d, x) {
      assert FirstFiring(Rules, d, x) == Rules[4].verdict;
    }
  }

  // ---------------------------------------------------------------- identifier

  const VoucherPrefix := "ShopBack Vouchers:"
  const CodePrefix := "Code used: "

  /** The longest run of identifier characters (`[a-zA-Z0-9_-]`) that ends
      the text: the group `(?:ID:\s*)?([a-zA-Z0-9_-]+)$` captures. An optional
      `ID:` label cannot change the group, because the group can only start
      after a character outside the class (`:` or white space) or at the
      start, so it is always this maximal run; empty when there is no match. */
  function TrailingId(text: string): (r: string)
    ensures |r| <= |text| && r == text[|text| - |r|..] && AllIn(IdChar, r)
    ensures |r| == |text| || !In(IdChar, text[|text| - |r| - 1])
  {
    text[|text| - TrailingRun(text, IdChar)..]
  }

  /** `extractTransactionId`: the identifier a description line carries. */
  function ExtractTransactionId(text: string): string {
    if text == "" then ""
    else if StartsWith(text, VoucherPrefix) then Trim(Piece(Split(text, ':'), 1))
    else if StartsWith(text, CodePrefix) then Trim(ReplaceFirst(text, CodePrefix))
    else if StartsWith(text, "AU_") then Trim(text)
    else Trim(TrailingId(text))
  }

  /** A voucher line yields the text between the marker's colon and the next
      colon (or the end), trimmed. */
  lemma VoucherId(text: string)
    requires StartsWith(text, VoucherPrefix)
    ensures ExtractTransactionId(text) == Trim(Split(text[|VoucherPrefix|..], ':')[0])
  {
    var a := text[..17];
    assert a == "ShopBack Vouchers";
    assert ':' !in a;
    assert text == a + [':'] + text[18..];
    SplitAfterFirst(a, text[18..], ':');
  }

  /** A "Code used: " line yields the rest of the line, trimmed. */
  lemma CodeUsedId(text: string)
    requires StartsWith(text, CodePrefix)
    ensures ExtractTransactionId(text) == Trim(text[|CodePrefix|..])
  {
    assert text[0] == 'C' && VoucherPrefix[0] == 'S';
    ReplaceFirstPrefix(text, CodePrefix);
  }

  /** An identifier character is never white space. */
  lemma IdCharNotSpace(s: string)
    requires AllIn(IdChar, s)
    ensures forall j :: 0 <= j < |s| ==> !IsSpace(s[j])
  {
    forall j | 0 <= j < |s| ensures !IsSpace(s[j]) {
      assert In(IdChar, s[j]);
    }
  }

  lemma SpaceNotIdChar(c: char)
    requires IsSpace(c)
    ensures !In(IdChar, c)
  {
  }

  /** Any other line yields its maximal trailing run of identifier characters
      (empty when the line does not end in one). */
  lemma RegularId(text: string)
    requires !StartsWith(text, VoucherPrefix) && !StartsWith(text, CodePrefix)
    requires !StartsWith(text, "AU_")
    ensures var r := ExtractTransactionId(text);
      && |r| <= |text| && r == text[|text| - |r|..] && AllIn(IdChar, r)
      && (|r| == |text| || !In(IdChar, text[|text| - |r| - 1]))
  {
    var t := TrailingId(text);
    IdCharNotSpace(t);
    TrimNoSpace(t);
    if |text| == 0 {
      assert |t| == 0;
      assert ExtractTransactionId(text) == "";
    } else {
      assert text != "";
      assert ExtractTransactionId(text) == Trim(t);
    }
  }

  /** A break character followed by identifier characters to the end marks
      where the trailing identifier starts. */
  lemma TrailingIdAfter(text: string, n: nat)
    requires 0 < n <= |text| && !In(IdChar, text[n - 1])
    requires AllIn(IdChar, text[n..])
    ensures TrailingId(text) == text[n..]
  {
    var r := TrailingId(text);
    assert |r| == |text| - n;
  }

  /** A line ending in `ID:`, optional white space and an identifier yields
      that identifier. */
  lemma LabelledId(prefix: string, gap: string, id: string)
    requires AllIn(Space, gap) && AllIn(IdChar, id) && |id| >= 1
    requires var text := prefix + "ID:" + gap + id;
      !StartsWith(text, VoucherPrefix) && !StartsWith(text, CodePrefix) && !StartsWith(text, "AU_")
    ensures ExtractTransactionId(prefix + "ID:" + gap + id) == id
  {
    var head := prefix + "ID:" + gap;
    var text := head + id;
    var n := |head|;
    assert text[n - 1] == head[n - 1];
    if |gap| > 0 {
      assert head[n - 1] == gap[|gap| - 1];
      assert In(Space, gap[|gap| - 1]);
      SpaceNotIdChar(text[n - 1]);
    } else {
      assert head[n - 1] == ':';
    }
    assert text[n..] == id;
    TrailingIdAfter(text, n);
    IdCharNotSpace(id);
    TrimNoSpace(id);
  }


  // ---------------------------------------------------------------- confirmation date

  const ConfirmedPrefix := "Confirmed by "

  /** Letters of the month name in a match of `Confirmed by ` at `p`. */
  function MonthLength(s: string, p: nat): nat
    requires p + 16 <= |s|
  {
    RunLength(s, p + 16, Letter)
  }

  /** `Confirmed by (\d{2} [A-Za-z]+ \d{4})` matches at `p`. The letter run
      is greedy and must be followed by a space, so a match at `p` has a
      single possible month: the maximal letter run. */
  predicate ConfirmedAt(s: string, p: nat) {
    && At(s, p, ConfirmedPrefix)
    && p + 16 <= |s|
    && IsDigit(s[p + 13]) && IsDigit(s[p + 14]) && s[p + 15] == ' '
    && var m := MonthLength(s, p);
       && m >= 1 && p + 21 + m <= |s| && s[p + 16 + m] == ' '
       && AllIn(Digit, s[p + 17 + m..p + 21 + m])
  }

  /** The leftmost match at or after `from`, as the regular expression finds it. */
  function FindConfirmed(s: string, from: nat): (r: Option<nat>)
    ensures r.Some? ==> from <= r.value && ConfirmedAt(s, r.value)
    ensures r.Some? ==> forall q: nat :: from <= q < r.value ==> !ConfirmedAt(s, q)
    ensures r.None? ==> forall q: nat :: from <= q ==> !ConfirmedAt(s, q)
    decreases |s| - from
  {
    if from >= |s| then None
    else if ConfirmedAt(s, from) then Some(from)
    else FindConfirmed(s, from + 1)
  }

  /** `extractConfirmationDate`: day-month-year of the first "Confirmed by"
      date, at one minute past midnight; empty when there is none. */
  function ExtractConfirmationDate(text: string): string {
    if text == "" then ""
    else match FindConfirmed(text, 0)
      case None => ""
      case Some(p) => DateReported(text, p)
  }

  /** The reported text for the match at `p`: its three space-separated
      pieces as day-month-year, the day padded, at one minute past midnight. */
  function DateReported(text: string, p: nat): string
    requires ConfirmedAt(text, p)
  {
    var parts := Split(text[p + 13..p + 21 + MonthLength(text, p)], ' ');
    PadStart2(Piece(parts, 0)) + "-" + Piece(parts, 1) + "-" + Piece(parts, 2) + " 00:01"
  }

  /** The text at `p` reads "Confirmed by DD Month YYYY": two digits, one or
      more letters, four digits. */
  predicate ConfirmedWith(s: string, p: nat, day: string, month: string, year: string) {
    && |day| == 2 && AllIn(Digit, day)
    && |month| >= 1 && AllIn(Letter, month)
    && |year| == 4 && AllIn(Digit, year)
    && At(s, p, ConfirmedPrefix)
    && At(s, p + 13, day + " " + month + " " + year)
  }

  /** A date written out at `p` is a match there, with that month. */
  lemma ShapeMatches(s: string, p: nat, day: string, month: string, year: string)
    requires ConfirmedWith(s, p, day, month, year)
    ensures ConfirmedAt(s, p) && MonthLength(s, p) == |month|
    ensures s[p + 13..p + 21 + |month|] == day + " " + month + " " + year
  {
    var m := |month|;
    AtSpacedSplit(s, p + 13, day, month, year);
    AtChar(s, p + 13, day, 0);
    AtChar(s, p + 13, day, 1);
    AtChar(s, p + 15, " ", 0);
    AtChar(s, p + 16 + m, " ", 0);
    AtAll(s, p + 16, month, Letter);
    RunLengthUnique(s, p + 16, m, Letter);
    assert s[p + 17 + m..p + 21 + m] == year;
  }

  /** A match at `p` writes out a date there. */
  lemma MatchShape(s: string, p: nat)
    requires ConfirmedAt(s, p)
    ensures var m := MonthLength(s, p);
      ConfirmedWith(s, p, s[p + 13..p + 15], s[p + 16..p + 16 + m], s[p + 17 + m..p + 21 + m])
  {
    var m := MonthLength(s, p);
    var day, month, year := s[p + 13..p + 15], s[p + 16..p + 16 + m], s[p + 17 + m..p + 21 + m];
    assert AllIn(Digit, day) by {
      assert day[0] == s[p + 13] && day[1] == s[p + 14];
    }
    assert AllIn(Letter, month) by {
      assert forall j :: 0 <= j < |month| ==> month[j] == s[p + 16 + j];
    }
    AtOne(s, p + 15);
    AtOne(s, p + 16 + m);
    AtSpacedJoin(s, p + 13, day, month, year);
  }

  /** No date is reported exactly when the text writes out none. */
  lemma ConfirmationDateAbsent(text: string)
    ensures ExtractConfirmationDate(text) == ""
      <==> forall p: nat, day, month, year :: !ConfirmedWith(text, p, day, month, year)
  {
    if exists p: nat, day, month, year :: ConfirmedWith(text, p, day, month, year) {
      var p: nat, day, month, year :| ConfirmedWith(text, p, day, month, year);
      ShapeMatches(text, p, day, month, year);
      assert text != "";
      var r := ExtractConfirmationDate(text);
      assert r[|r| - 6..] == " 00:01";
    } else if FindConfirmed(text, 0).Some? {
      MatchShape(text, FindConfirmed(text, 0).value);
    }
  }

  /** The date "DD Month YYYY" is split at its two spaces into its parts. */
  lemma DateParts(day: string, month: string, year: string)
    requires AllIn(Digit, day) && AllIn(Letter, month) && AllIn(Digit, year)
    ensures Split(day + " " + month + " " + year, ' ') == [day, month, year]
  {
    assert Join([year], ' ') == year;
    assert Join([month, year], ' ') == month + [' '] + year by {
      assert [month, year][1..] == [year];
    }
    assert Join([day, month, year], ' ') == day + [' '] + (month + [' '] + year) by {
      assert [day, month, year][1..] == [month, year];
    }
    assert day + " " + month + " " + year == day + [' '] + (month + [' '] + year);
    NotIn(Digit, day, ' ');
    NotIn(Letter, month, ' ');
    NotIn(Digit, year, ' ');
    SplitJoin([day, month, year], ' ');
  }

  /** The first date written out in the text is the one reported, as
      day-month-year at one minute past midnight. */
  lemma ConfirmationDateLeftmost(text: string, p: nat, day: string, month: string, year: string)
    requires ConfirmedWith(text, p, day, month, year)
    requires forall q: nat, d, m, y :: q < p ==> !ConfirmedWith(text, q, d, m, y)
    ensures ExtractConfirmationDate(text) == day + "-" + month + "-" + year + " 00:01"
  {
    ShapeMatches(text, p, day, month, year);
    var found := FindConfirmed(text, 0);
    assert found.Some? && found.value <= p;
    if found.value < p {
      MatchShape(text, found.value);
      assert false;
    }
    ReportedDate(text, p, day, month, year);
  }

  /** The date reported for the match found at `p`. */
  lemma ReportedDate(text: string, p: nat, day: string, month: string, year: string)
    requires FindConfirmed(text, 0) == Some(p)
    requires |day| == 2 && AllIn(Digit, day) && AllIn(Letter, month) && AllIn(Digit, year)
    requires text[p + 13..p + 21 + MonthLength(text, p)] == day + " " + month + " " + year
    ensures ExtractConfirmationDate(text) == day + "-" + month + "-" + year + " 00:01"
  {
    assert |text| >= 13;
    assert ExtractConfirmationDate(text) == DateReported(text, p);
    DateParts(day, month, year);
  }

  // ---------------------------------------------------------------- date

  /** `formatDate`: "D Mon" and "H:MM" with the table's current year become
      "DD-Mon-YYYY HH:MM"; a missing piece prints as "undefined". */
  function FormatDate(dayText: string, timeText: string, year: string): string {
    var dm := Split(dayText, ' ');
    var hm := Split(timeText, ':');
    DateTime(PadStart2(Piece(dm, 0)), Piece(dm, 1), year, PadStart2(Piece(hm, 0)), Piece(hm, 1))
  }

  /** The layout `d-mo-y h:mi`. */
  function DateTime(d: string, mo: string, y: string, h: string, mi: string): string {
    d + "-" + mo + "-" + y + " " + h + ":" + mi
  }

  /** The layout begins with the day and the month. */
  lemma DateTimePrefix(d: string, mo: string, y: string, h: string, mi: string)
    ensures |DateTime(d, mo, y, h, mi)| > |d| + 1 + |mo|
    ensures DateTime(d, mo, y, h, mi)[..|d| + 1 + |mo|] == d + "-" + mo
  {
    Regroup(d + "-" + mo + "-", y, h, mi);
    TakeConcat(d + "-" + mo, "-" + (y + " " + h + ":" + mi));
    assert DateTime(d, mo, y, h, mi) == d + "-" + mo + ("-" + (y + " " + h + ":" + mi));
  }

  /** A day "D Mon" and a time "H:MM" are reassembled field by field: day
      and hour padded to two digits, month and minutes kept. */
  lemma FormatDateFields(day: string, month: string, hours: string, minutes: string, year: string)
    requires ' ' !in day && ' ' !in month && ':' !in hours && ':' !in minutes
    ensures FormatDate(day + " " + month, hours + ":" + minutes, year)
      == PadStart2(day) + "-" + month + "-" + year + " " + PadStart2(hours) + ":" + minutes
  {
    SplitPair(day, month, ' ');
    SplitPair(hours, minutes, ':');
  }

  /** A day without a space has no month: the month field prints "undefined". */
  lemma FormatDateNoMonth(dayText: string, timeText: string, year: string)
    requires ' ' !in dayText
    ensures var r := FormatDate(dayText, timeText, year);
      var d := PadStart2(dayText);
      |r| > |d| + 10 && r[..|d| + 10] == d + "-" + "undefined"
  {
    SplitNone(dayText, ' ');
    var hm := Split(timeText, ':');
    DateTimePrefix(PadStart2(dayText), "undefined", year, PadStart2(Piece(hm, 0)), Piece(hm, 1));
  }

  // ---------------------------------------------------------------- rows

  /** What a transaction row of the table shows: the number of cells, the
      date paragraph and time span, the description paragraphs (the first
      is the vendor), the amount, the status chip if any, the identifier
      found in the expanded row ("" when none) and the purchase amount read
      from it ("" when none). */
  datatype RowCells = RowCells(
    cellCount: nat,
    dayText: string,
    timeText: string,
    vendorText: string,
    moreParagraphs: seq<string>,
    amountText: string,
    statusChip: Option<string>,
    expandedId: string,
    purchase: string)

  /** A row of the table: a year separator or a transaction row. */
  datatype TableRow = YearRow(yearText: string) | DataRow(cells: RowCells)

  datatype CashbackRecord = CashbackRecord(
    id: string,
    date: string,
    confirmationDate: string,
    vendor: string,
    txType: TxType,
    purchase: string,
    amount: string,
    status: string)

  /** What `extractRowData` returns: nothing, a new year, or a record. */
  datatype RowData = Skipped | NewYear(year: string) | Entry(record: CashbackRecord)

  function TrimAll(texts: seq<string>): (r: seq<string>)
    ensures |r| == |texts|
    ensures forall i :: 0 <= i < |texts| ==> r[i] == Trim(texts[i])
  {
    if |texts| == 0 then [] else [Trim(texts[0])] + TrimAll(texts[1..])
  }

  /** The description the type is decided on: every paragraph followed by a space. */
  function TypeText(texts: seq<string>): string {
    if |texts| == 0 then "" else texts[0] + " " + TypeText(texts[1..])
  }

  /** The record of a transaction row, dated with the year in effect. */
  function ExtractRecord(c: RowCells, year: string): CashbackRecord {
    var texts := TrimAll([c.vendorText] + c.moreParagraphs);
    var found := if |texts| > 1 then ExtractTransactionId(texts[1]) else "";
    var id := if found != "" then found else c.expandedId;
    CashbackRecord(
      id,
      FormatDate(Trim(c.dayText), Trim(c.timeText), year),
      if |texts| > 2 then ExtractConfirmationDate(texts[2]) else "",
      texts[0],
      DetermineType(TypeText(texts), id),
      c.purchase,
      Trim(c.amountText),
      if c.statusChip.Some? then Trim(c.statusChip.value) else "")
  }

  /** `extractRowData` */
  function ExtractRowData(row: TableRow, year: string): RowData {
    match row
    case YearRow(t) => NewYear(Trim(t))
    case DataRow(c) => if c.cellCount < 4 then Skipped else Entry(ExtractRecord(c, year))
  }

  /** An occurrence inside the second paragraph is an occurrence in the type text. */
  lemma TypeTextHasSecond(texts: seq<string>, p: string)
    requires |texts| > 1 && StartsWith(texts[1], p)
    ensures Contains(TypeText(texts), p)
  {
    var t := TypeText(texts);
    var a := texts[0] + " ";
    var rest := TypeText(texts[1..]);
    var x := " " + TypeText(texts[1..][1..]);
    var y := texts[1][|p|..];
    assert t == a + rest;
    assert rest == texts[1] + x;
    assert texts[1] == p + y;
    assert At(t, 0, t);
    AtConcat(t, 0, a, rest);
    AtConcat(t, |a|, texts[1], x);
    AtConcat(t, |a|, p, y);
    assert At(t, |a|, p);
  }

  /** A transaction whose second description line is a voucher line is a
      gift card, identified by the voucher code. */
  lemma VoucherRecord(c: RowCells, year: string)
    requires |c.moreParagraphs| >= 1 && StartsWith(Trim(c.moreParagraphs[0]), VoucherPrefix)
    ensures var r := ExtractRecord(c, year);
      var line := Trim(c.moreParagraphs[0]);
      && r.txType == GiftCard
      && (Trim(Split(line[|VoucherPrefix|..], ':')[0]) != "" ==> r.id == Trim(Split(line[|VoucherPrefix|..], ':')[0]))
  {
    var texts := TrimAll([c.vendorText] + c.moreParagraphs);
    assert texts[1] == Trim(c.moreParagraphs[0]);
    TypeTextHasSecond(texts, VoucherPrefix);
    VoucherId(texts[1]);
  }

  // ---------------------------------------------------------------- pages

  /** The records collected so far and the year in effect. */
  datatype PageState = PageState(data: seq<CashbackRecord>, year: string)

  /** One row of `processCurrentPage`: a year row changes the year, a short
      row is skipped, a transaction row appends its record. */
  function Step(row: TableRow, st: PageState): PageState {
    match ExtractRowData(row, st.year)
    case Skipped => st
    case NewYear(y) => PageState(st.data, y)
    case Entry(r) => PageState(st.data + [r], st.year)
  }

  /** `processCurrentPage`: the rows in document order. */
  function ProcessRows(rows: seq<TableRow>, st: PageState): PageState
    decreases |rows|
  {
    if |rows| == 0 then st else ProcessRows(rows[1..], Step(rows[0], st))
  }

  /** Processing two runs of rows is processing the first, then the second. */
  lemma {:induction false} ProcessRowsAppend(a: seq<TableRow>, b: seq<TableRow>, st: PageState)
    ensures ProcessRows(a + b, st) == ProcessRows(b, ProcessRows(a, st))
    decreases |a|
  {
    if |a| == 0 {
      assert a + b == b;
    } else {
      assert (a + b)[0] == a[0];
      assert (a + b)[1..] == a[1..] + b;
      ProcessRowsAppend(a[1..], b, Step(a[0], st));
    }
  }

  /** The year in effect after the rows: that of the last year row among
      them, or the starting year when there is none. */
  function YearAfter(rows: seq<TableRow>, year: string): string
    decreases |rows|
  {
    if |rows| == 0 then year
    else match rows[|rows| - 1]
      case YearRow(t) => Trim(t)
      case DataRow(_) => YearAfter(rows[..|rows| - 1], year)
  }

  /** The records the rows yield: one per row of four or more cells, in
      order, each dated with the year of the nearest year row above it. */
  function RowRecords(rows: seq<TableRow>, year: string): seq<CashbackRecord>
    decreases |rows|
  {
    if |rows| == 0 then []
    else
      var above := rows[..|rows| - 1];
      RowRecords(above, year) +
        match rows[|rows| - 1]
        case DataRow(c) => if c.cellCount >= 4 then [ExtractRecord(c, YearAfter(above, year))] else []
        case YearRow(_) => []
  }

  /** Processing rows appends their records and leaves the last year row's
      year in effect. */
  lemma {:induction false} ProcessRowsSpec(rows: seq<TableRow>, data: seq<CashbackRecord>, year: string)
    ensures ProcessRows(rows, PageState(data, year))
      == PageState(data + RowRecords(rows, year), YearAfter(rows, year))
    decreases |rows|
  {
    if |rows| == 0 {
      assert data + [] == data;
    } else {
      var above := rows[..|rows| - 1];
      var last := rows[|rows| - 1];
      assert rows == above + [last];
      ProcessRowsAppend(above, [last], PageState(data, year));
      ProcessRowsSpec(above, data, year);
      var mid := PageState(data + RowRecords(above, year), YearAfter(above, year));
      ProcessOne(last, mid);
      StepSpec(above, last, data, year);
    }
  }

  /** The step for one more row extends the records and the year in effect
      as the reference definitions do. */
  lemma StepSpec(above: seq<TableRow>, last: TableRow, data: seq<CashbackRecord>, year: string)
    ensures var rows := above + [last];
      Step(last, PageState(data + RowRecords(above, year), YearAfter(above, year)))
        == PageState(data + RowRecords(rows, year), YearAfter(rows, year))
  {
    RowRecordsLast(above, last, year);
    YearAfterLast(above, last, year);
    var mid := PageState(data + RowRecords(above, year), YearAfter(above, year));
    match last
    case YearRow(t) => {
      assert ExtractRowData(last, mid.year) == NewYear(Trim(t));
      assert RowRecords(above, year) + [] == RowRecords(above, year);
    }
    case DataRow(c) => {
      if c.cellCount >= 4 {
        var rec := ExtractRecord(c, mid.year);
        assert ExtractRowData(last, mid.year) == Entry(rec);
        AppendAssoc(data, RowRecords(above, year), [rec]);
      } else {
        assert ExtractRowData(last, mid.year) == Skipped;
        assert RowRecords(above, year) + [] == RowRecords(above, year);
      }
    }
  }

  /** The reference records of rows with one more row below them. */
  lemma RowRecordsLast(above: seq<TableRow>, last: TableRow, year: string)
    ensures RowRecords(above + [last], year) == RowRecords(above, year) +
      match last
      case DataRow(c) => if c.cellCount >= 4 then [ExtractRecord(c, YearAfter(above, year))] else []
      case YearRow(_) => []
  {
    var rows := above + [last];
    assert rows[..|rows| - 1] == above && rows[|rows| - 1] == last;
  }

  /** The reference year after rows with one more row below them. */
  lemma YearAfterLast(above: seq<TableRow>, last: TableRow, year: string)
    ensures YearAfter(above + [last], year) ==
      match last
      case YearRow(t) => Trim(t)
      case DataRow(_) => YearAfter(above, year)
  {
    var rows := above + [last];
    assert rows[..|rows| - 1] == above && rows[|rows| - 1] == last;
  }

  lemma ProcessOne(row: TableRow, st: PageState)
    ensures ProcessRows([row], st) == Step(row, st)
  {
    assert [row][1..] == [];
  }

  /** One page of the table and whether its next-page button is enabled. */
  datatype Page = Page(rows: seq<TableRow>, nextEnabled: bool)

  /** The safety limit on pages read. */
  const MaxPages: nat := 100

  datatype Walked = Walked(state: PageState, pagesRead: nat)

  /** The loop of `startExport` from a count of `count` earlier page turns:
      read the page, then go on while the next-page button is enabled and
      fewer than `MaxPages` pages are counted. */
  function Walk(pages: seq<Page>, st: PageState, count: nat): (w: Walked)
    ensures w.pagesRead <= |pages|
    ensures count >= MaxPages ==> w.pagesRead == 0
    ensures count < MaxPages ==> count + w.pagesRead <= MaxPages
    ensures count < MaxPages && |pages| > 0 ==> w.pagesRead >= 1
    ensures forall j :: 0 <= j < w.pagesRead - 1 ==> pages[j].nextEnabled
    ensures 0 < w.pagesRead < |pages|
      ==> !pages[w.pagesRead - 1].nextEnabled || count + w.pagesRead == MaxPages
    decreases |pages|
  {
    if |pages| == 0 || count >= MaxPages then Walked(st, 0)
    else
      var after := ProcessRows(pages[0].rows, st);
      if !pages[0].nextEnabled then Walked(after, 1)
      else
        var w := Walk(pages[1..], after, count + 1);
        Walked(w.state, w.pagesRead + 1)
  }

  /** All rows of the pages, page after page. */
  function AllRows(pages: seq<Page>): seq<TableRow>
    decreases |pages|
  {
    if |pages| == 0 then [] else pages[0].rows + AllRows(pages[1..])
  }

  /** The walk processes the rows of the pages it reads, as one sequence. */
  lemma {:induction false} WalkFold(pages: seq<Page>, st: PageState, count: nat)
    ensures var w := Walk(pages, st, count);
      w.state == ProcessRows(AllRows(pages[..w.pagesRead]), st)
    decreases |pages|, 1
  {
    var w := Walk(pages, st, count);
    if |pages| == 0 || count >= MaxPages {
      assert pages[..0] == [];
    } else if pages[0].nextEnabled {
      WalkFoldNext(pages, st, count);
    } else {
      var after := ProcessRows(pages[0].rows, st);
      assert w == Walked(after, 1);
      AllRowsFirst(pages, 1);
      assert AllRows(pages[1..][..0]) == [];
      assert pages[0].rows + [] == pages[0].rows;
    }
  }

  /** The inductive step of `WalkFold`, when the first page leads on. */
  lemma {:induction false} WalkFoldNext(pages: seq<Page>, st: PageState, count: nat)
    requires |pages| > 0 && count < MaxPages && pages[0].nextEnabled
    ensures var w := Walk(pages, st, count);
      w.state == ProcessRows(AllRows(pages[..w.pagesRead]), st)
    decreases |pages|, 0
  {
    var after := ProcessRows(pages[0].rows, st);
    WalkFold(pages[1..], after, count + 1);
    var rest := Walk(pages[1..], after, count + 1);
    var later := AllRows(pages[1..][..rest.pagesRead]);
    assert rest.state == ProcessRows(later, after);
    var w := Walk(pages, st, count);
    assert w == Walked(rest.state, rest.pagesRead + 1);
    AllRowsFirst(pages, w.pagesRead);
    FoldChain(pages[0].rows, later, st, AllRows(pages[..w.pagesRead]), w.state);
  }

  /** Processing joined rows, stated for the walk's induction step. */
  lemma FoldChain(a: seq<TableRow>, later: seq<TableRow>, st: PageState, all: seq<TableRow>, final: PageState)
    requires all == a + later
    requires final == ProcessRows(later, ProcessRows(a, st))
    ensures final == ProcessRows(all, st)
  {
    ProcessRowsAppend(a, later, st);
  }

  /** The rows of the first `n` pages begin with the first page's rows. */
  lemma AllRowsFirst(pages: seq<Page>, n: nat)
    requires 1 <= n <= |pages|
    ensures AllRows(pages[..n]) == pages[0].rows + AllRows(pages[1..][..n - 1])
  {
    assert pages[..n][0] == pages[0];
    assert pages[..n][1..] == pages[1..][..n - 1];
  }

  // ---------------------------------------------------------------- file

  const Header: seq<string> :=
    ["ID", "Date", "Confirmation Date", "Vendor", "Type", "Purchase", "Amount", "Status"]

  const CsvFileName := "shopback_cashback.csv"

  /** The fields of one record's line: the vendor quoted, the rest verbatim. */
  function RecordCells(r: CashbackRecord): seq<Cell> {
    [Plain(r.id), Plain(r.date), Plain(r.confirmationDate), Quoted(r.vendor),
     Plain(Label(r.txType)), Plain(r.purchase), Plain(r.amount), Plain(r.status)]
  }

  /** One line per record, each followed by a line feed. */
  function RecordLines(data: seq<CashbackRecord>): string
    decreases |data|
  {
    if |data| == 0 then "" else Line(RecordCells(data[0])) + "\n" + RecordLines(data[1..])
  }

  /** `downloadCSV`: the header line, then the record lines. */
  function CsvContent(data: seq<CashbackRecord>): string {
    Join(Header, ',') + "\n" + RecordLines(data)
  }

  /** `startExport`: walk the pages from the current year and write the file. */
  function StartExport(pages: seq<Page>, currentYear: string): CsvFile {
    CsvFile(CsvFileName, CsvContent(Walk(pages, PageState([], currentYear), 0).state.data))
  }

  /** What a reader gets back for one record. */
  function RecordValues(r: CashbackRecord): seq<string> {
    [r.id, r.date, r.confirmationDate, r.vendor, Label(r.txType), r.purchase, r.amount, r.status]
  }

  /** The fields written verbatim hold no comma, quote or line feed. */
  predicate VerbatimSafe(r: CashbackRecord) {
    && PlainSafe(r.id) && PlainSafe(r.date) && PlainSafe(r.confirmationDate)
    && PlainSafe(r.purchase) && PlainSafe(r.amount) && PlainSafe(r.status)
  }

  function RecordRows(data: seq<CashbackRecord>): (rows: seq<seq<Cell>>)
    ensures |rows| == |data|
    ensures forall i :: 0 <= i < |data| ==> rows[i] == RecordCells(data[i])
    decreases |data|
  {
    if |data| == 0 then [] else [RecordCells(data[0])] + RecordRows(data[1..])
  }

  function AllRecordValues(data: seq<CashbackRecord>): (r: seq<seq<string>>)
    ensures |r| == |data|
    ensures forall i :: 0 <= i < |data| ==> r[i] == RecordValues(data[i])
    decreases |data|
  {
    if |data| == 0 then [] else [RecordValues(data[0])] + AllRecordValues(data[1..])
  }

  const HeaderCells: seq<Cell> := PlainCells(Header)

  /** The header's names can all stand verbatim in a line. */
  lemma HeaderSafe()
    ensures forall j :: 0 <= j < |Header| ==> PlainSafe(Header[j])
  {
    CharsSafe("ID");
    CharsSafe("Date");
    CharsSafe("Confirmation Date");
    CharsSafe("Vendor");
    CharsSafe("Type");
    CharsSafe("Purchase");
    CharsSafe("Amount");
    CharsSafe("Status");
  }

  lemma {:induction false} RecordLinesTerminated(data: seq<CashbackRecord>)
    ensures RecordLines(data) == TerminatedLines(RecordRows(data))
    decreases |data|
  {
    if |data| > 0 {
      RecordLinesTerminated(data[1..]);
      assert RecordRows(data)[1..] == RecordRows(data[1..]);
    }
  }

  /** A record's line holds eight fields that read back as the record's
      values, with the vendor exactly as shown whatever commas or quotes it
      contains. */
  lemma RecordCellsValues(r: CashbackRecord)
    ensures |RecordCells(r)| == 8 && Values(RecordCells(r)) == RecordValues(r)
  {
  }

  /** Every field of a record's line can be read back when the verbatim
      fields hold no comma, quote or line feed. */
  lemma RecordCellsSafe(r: CashbackRecord)
    requires VerbatimSafe(r)
    ensures |RecordCells(r)| >= 1 && CellsSafe(RecordCells(r))
  {
    LabelsDistinct(r.txType, r.txType);
    var cells := RecordCells(r);
    forall j | 0 <= j < |cells| ensures CellSafe(cells[j]) {
      if j == 4 {
        assert cells[j] == Plain(Label(r.txType));
      }
    }
  }

  /** A header row and the record rows: every cell safe, every row non-empty. */
  lemma DocumentRowsSafe(head: seq<Cell>, data: seq<CashbackRecord>)
    requires |head| >= 1 && CellsSafe(head)
    requires forall i :: 0 <= i < |data| ==> VerbatimSafe(data[i])
    ensures Writable([head] + RecordRows(data), 1)
  {
    RecordRowsSafe(data);
    WritableCons(head, RecordRows(data), 1);
  }

  /** The record rows: every cell safe, every row non-empty. */
  lemma {:induction false} RecordRowsSafe(data: seq<CashbackRecord>)
    requires forall i :: 0 <= i < |data| ==> VerbatimSafe(data[i])
    ensures Writable(RecordRows(data), 1)
    decreases |data|
  {
    if |data| > 0 {
      RecordRowsSafe(data[1..]);
      RecordCellsSafe(data[0]);
      WritableCons(RecordCells(data[0]), RecordRows(data[1..]), 1);
    }
  }

  /** A header row and the record rows read back as the header's values and
      each record's values. */
  lemma DocumentValues(head: seq<Cell>, data: seq<CashbackRecord>)
    ensures AllValues([head] + RecordRows(data)) == [Values(head)] + AllRecordValues(data)
  {
    var rows := [head] + RecordRows(data);
    var want := [Values(head)] + AllRecordValues(data);
    var got := AllValues(rows);
    assert |got| == |want|;
    forall i | 0 <= i < |rows| ensures got[i] == want[i] {
      if i > 0 {
        assert got[i] == Values(rows[i]);
        assert rows[i] == RecordCells(data[i - 1]);
        RecordCellsValues(data[i - 1]);
        assert want[i] == AllRecordValues(data)[i - 1];
      }
    }
    assert got == want;
  }

  lemma DocumentText(data: seq<CashbackRecord>)
    ensures TerminatedLines([HeaderCells] + RecordRows(data)) == CsvContent(data)
  {
    var rows := [HeaderCells] + RecordRows(data);
    PlainCellsText(Header);
    RecordLinesTerminated(data);
    assert rows[1..] == RecordRows(data);
  }

  /** The file reads back, per section 2 of RFC 4180, as the header followed
      by each record's eight values in order, provided the verbatim fields
      hold no comma, quote or line feed. */
  lemma CsvRoundTrip(data: seq<CashbackRecord>)
    requires forall i :: 0 <= i < |data| ==> VerbatimSafe(data[i])
    ensures ParseDocument(CsvContent(data)) == Some([Header] + AllRecordValues(data))
  {
    DocumentParses(data);
    DocumentText(data);
    DocumentValues(HeaderCells, data);
    PlainCellsText(Header);
  }

  /** The header row and the record rows, written one per line, read back
      as their values. */
  lemma DocumentParses(data: seq<CashbackRecord>)
    requires forall i :: 0 <= i < |data| ==> VerbatimSafe(data[i])
    ensures var rows := [HeaderCells] + RecordRows(data);
      ParseDocument(TerminatedLines(rows)) == Some(AllValues(rows))
  {
    HeaderSafe();
    assert |HeaderCells| == 8;
    assert CellsSafe(HeaderCells) by {
      forall j | 0 <= j < |HeaderCells| ensures CellSafe(HeaderCells[j]) {
        assert HeaderCells[j] == Plain(Header[j]);
      }
    }
    DocumentRowsSafe(HeaderCells, data);
    TerminatedRoundTrip([HeaderCells] + RecordRows(data));
  }

  /** The exported file: read at most `MaxPages` pages, stopping after the
      first page whose next-page button is disabled; its content is the
      records of the rows of the pages read, dated by the year rows above
      them, starting from the current year. */
  lemma ExportSpec(pages: seq<Page>, currentYear: string)
    ensures var w := Walk(pages, PageState([], currentYear), 0);
      && StartExport(pages, currentYear).name == "shopback_cashback.csv"
      && w.pagesRead <= MaxPages && w.pagesRead <= |pages|
      && (|pages| > 0 ==> w.pagesRead >= 1)
      && (forall j :: 0 <= j < w.pagesRead - 1 ==> pages[j].nextEnabled)
      && StartExport(pages, currentYear).content
           == CsvContent(RowRecords(AllRows(pages[..w.pagesRead]), currentYear))
  {
    var w := Walk(pages, PageState([], currentYear), 0);
    WalkFold(pages, PageState([], currentYear), 0);
    ProcessRowsSpec(AllRows(pages[..w.pagesRead]), [], currentYear);
    assert [] + RowRecords(AllRows(pages[..w.pagesRead]), currentYear)
      == RowRecords(AllRows(pages[..w.pagesRead]), currentYear);
  }
}
