/**
  transaction/transaction.go: the field parsers, the payee/memo extractor and
  the assembly of one bank-statement record into a transaction.
 */
module Transaction {
  import opened Wrappers
  import opened Strings
  import opened Memo

  // ---------------------------------------------------------------------------
  // Categories and currencies

  /** Go's `type Category int64`; its constants are the iota codes 0 to 4. */
  type Category = int

  const Fee: Category := 0
  const Transfer: Category := 1
  const Charge: Category := 2
  const Order: Category := 3
  const Others: Category := 4

  /** Go's `type Currency int64`. */
  type Currency = int

  const Eur: Currency := 0
  const Usd: Currency := 1

  datatype ParseError =
    | InvalidRecordLength(length: nat)
    | InvalidDate
    | UnknownCategory
    | InvalidAmount
    | UnknownCurrency

  /** Go's `(value, error)` result pair: `err` is `None` for nil. */
  datatype Parsed<T> = Parsed(value: T, err: Option<ParseError>)

  /** The export's category labels; the label at index `c` denotes category code `c`. */
  const CategoryLabels: seq<string> := ["Zinsen/Entgelte", "Überweisung", "Lastschrift", "Dauerauftrag", "Sonstige"]

  /** The currency codes; the code at index `c` denotes currency `c`. */
  const CurrencyCodes: seq<string> := ["EUR", "USD"]

  /** `parseTransactionCategory`: the closed `switch` over the five labels. */
  function ParseTransactionCategory(text: string): (r: Parsed<Category>)
    ensures r.err.None? <==> text in CategoryLabels
    ensures r.err.None? ==> Fee <= r.value <= Others && CategoryLabels[r.value] == text
    ensures r.err.Some? ==> r == Parsed(-1, Some(UnknownCategory))
  {
    if text == "Zinsen/Entgelte" then Parsed(Fee, None)
    else if text == "Überweisung" then Parsed(Transfer, None)
    else if text == "Lastschrift" then Parsed(Charge, None)
    else if text == "Dauerauftrag" then Parsed(Order, None)
    else if text == "Sonstige" then Parsed(Others, None)
    else Parsed(-1, Some(UnknownCategory))
  }

  /** `parseCurrency`. */
  function ParseCurrency(text: string): (r: Parsed<Currency>)
    ensures r.err.None? <==> text in CurrencyCodes
    ensures r.err.None? ==> Eur <= r.value <= Usd && CurrencyCodes[r.value] == text
    ensures r.err.Some? ==> r == Parsed(-1, Some(UnknownCurrency))
  {
    if text == "EUR" then Parsed(Eur, None)
    else if text == "USD" then Parsed(Usd, None)
    else Parsed(-1, Some(UnknownCurrency))
  }

  /** Distinct labels map to distinct categories, and back. */
  lemma CategoryLabelsDistinct(a: string, b: string)
    requires ParseTransactionCategory(a).err.None? && ParseTransactionCategory(b).err.None?
    ensures ParseTransactionCategory(a).value == ParseTransactionCategory(b).value <==> a == b
  {
  }

  // ---------------------------------------------------------------------------
  // Payee and memo

  /** The payee of every fee: the bank itself. */
  const Bank: string := "Commerzbank"

  /** The payee when no strategy recognises one. */
  const UnknownPayee: string := "Unknown"

  /** Legal-form endings, in the order in which they are tried. */
  const CorporateEndings: seq<string> :=
    ["e. V.", "KG", "GmbH", "AG", "OHG", "GbR", "PartG", "UG", "SE", "Inc.", "Ltd."]

  /**
    The known payees: canonical name and its variations, searched in this
    order (the loaded JSON object, with its iteration order fixed).
   */
  type Registry = seq<(string, seq<string>)>

  /** What `extractPayeeAndMemo` returns; `payeeUnknown` stands for its non-nil error. */
  datatype Extraction = Extraction(payee: string, memo: string, payeeUnknown: bool)

  /** `strings.HasPrefix(strings.ToLower(memo), strings.ToLower(prefix))`. */
  predicate StartsWithFold(memo: string, prefix: string) {
    HasPrefix(ToLower(memo), ToLower(prefix))
  }

  /** `strings.Contains(strings.ToLower(memo), strings.ToLower(sub))`. */
  predicate ContainsFold(memo: string, sub: string) {
    Contains(ToLower(memo), ToLower(sub))
  }

  /** Variation `j` of registry entry `i` is a case-insensitive prefix of `memo`. */
  predicate VariationMatches(registry: Registry, memo: string, i: int, j: int) {
    0 <= i < |registry| && 0 <= j < |registry[i].1| && StartsWithFold(memo, registry[i].1[j])
  }

  /** The first of `variations` that is a case-insensitive prefix of `memo`. */
  function FirstVariation(variations: seq<string>, memo: string): (r: Option<nat>)
    ensures r.Some? ==> r.value < |variations| && StartsWithFold(memo, variations[r.value])
    ensures r.Some? ==> forall j :: 0 <= j < r.value ==> !StartsWithFold(memo, variations[j])
    ensures r.None? ==> forall j :: 0 <= j < |variations| ==> !StartsWithFold(memo, variations[j])
  {
    if variations == [] then None
    else if StartsWithFold(memo, variations[0]) then Some(0)
    else match FirstVariation(variations[1..], memo)
      case None => None
      case Some(j) => Some(j + 1)
  }

  /** The first matching (entry, variation) pair, entries in registry order, variations in list order. */
  function FirstMatch(registry: Registry, memo: string): (r: Option<(nat, nat)>)
    ensures r.Some? ==> VariationMatches(registry, memo, r.value.0, r.value.1)
    ensures r.Some? ==> forall i, j :: i < r.value.0 || (i == r.value.0 && j < r.value.1) ==>
      !VariationMatches(registry, memo, i, j)
    ensures r.None? ==> forall i, j :: !VariationMatches(registry, memo, i, j)
  {
    if registry == [] then None
    else match FirstVariation(registry[0].1, memo)
      case Some(j) => Some((0, j))
      case None =>
        var rest := FirstMatch(registry[1..], memo);
        assert forall i, j :: VariationMatches(registry, memo, i, j) <==>
          (i == 0 && VariationMatches(registry, memo, 0, j)) || (i > 0 && VariationMatches(registry[1..], memo, i - 1, j));
        match rest
        case None => None
        case Some(p) => Some((p.0 + 1, p.1))
  }

  /** None of `endings` occurs in `memo`, ignoring case. */
  predicate NoEndingOccurs(memo: string, endings: seq<string>) {
    forall k :: 0 <= k < |endings| ==> !ContainsFold(memo, endings[k])
  }

  /** The first of `endings` that occurs anywhere in `memo`, ignoring case. */
  function FirstEnding(endings: seq<string>, memo: string): (r: Option<nat>)
    ensures r.Some? ==> r.value < |endings| && ContainsFold(memo, endings[r.value])
    ensures r.Some? ==> NoEndingOccurs(memo, endings[..r.value])
    ensures r.None? ==> NoEndingOccurs(memo, endings)
  {
    if endings == [] then None
    else if ContainsFold(memo, endings[0]) then Some(0)
    else match FirstEnding(endings[1..], memo)
      case None => None
      case Some(k) =>
        assert endings[..k + 1] == [endings[0]] + endings[1..][..k];
        Some(k + 1)
  }

  /**
    `payeeEndIndex`: the end of the last case-insensitive occurrence of
    `ending` in `memo`.
   */
  function EndingCut(memo: string, ending: string): (cut: nat)
    requires ContainsFold(memo, ending)
    ensures |ending| <= cut <= |memo|
    ensures OccursAt(ToLower(memo), ToLower(ending), cut - |ending|)
    ensures forall i :: cut - |ending| < i ==> !OccursAt(ToLower(memo), ToLower(ending), i)
  {
    LastIndex(ToLower(memo), ToLower(ending)) + |ending|
  }

  /**
    `extractPayeeAndMemo` as a function of its inputs: the fee shortcut, then
    the registry, then the corporate endings, then "Unknown".
   */
  function Extract(text: string, category: Category, registry: Registry): (r: Extraction)
    ensures r.payeeUnknown ==> category != Fee && r == Extraction(UnknownPayee, TrimMemo(text), true)
    ensures |r.memo| <= |TrimMemo(text)|
  {
    if category == Fee then Extraction(Bank, TrimMemo(text), false)
    else
      var memo := TrimMemo(text);
      match FirstMatch(registry, memo)
      case Some(p) =>
        var variation := registry[p.0].1[p.1];
        Extraction(registry[p.0].0, TrimSpace(memo[|variation|..]), false)
      case None =>
        match FirstEnding(CorporateEndings, memo)
        case Some(k) =>
          var cut := EndingCut(memo, CorporateEndings[k]);
          Extraction(memo[..cut], TrimSpace(memo[cut..]), false)
        case None =>
          Extraction(UnknownPayee, memo, true)
  }

  /** `s` ends with `suffix`, ignoring case. */
  predicate EndsWithFold(s: string, suffix: string) {
    |suffix| <= |s| && ToLower(s)[|s| - |suffix|..] == ToLower(suffix)
  }

  /** Fee shortcut: a fee is always paid to the bank, whatever the registry holds, and is no error. */
  lemma FeeShortcut(text: string, registry: Registry)
    ensures Extract(text, Fee, registry) == Extraction(Bank, TrimMemo(text), false)
  {
  }

  /**
    Registry strategy: when the first matching pair, in registry order and then
    variation order, is variation `j` of entry `i`, the payee is that entry's
    canonical name and the memo is the rest of the cleaned text after as many
    characters as the variation has, trimmed.
   */
  lemma RegistryStrategy(text: string, category: Category, registry: Registry, i: nat, j: nat)
    requires category != Fee
    requires VariationMatches(registry, TrimMemo(text), i, j)
    requires forall i', j' :: i' < i || (i' == i && j' < j) ==> !VariationMatches(registry, TrimMemo(text), i', j')
    ensures |registry[i].1[j]| <= |TrimMemo(text)|
    ensures Extract(text, category, registry) ==
      Extraction(registry[i].0, TrimSpace(TrimMemo(text)[|registry[i].1[j]|..]), false)
  {
    FirstMatchIs(registry, TrimMemo(text), i, j);
  }

  /** A narration that is exactly the first matching variation, ignoring case, leaves an empty memo. */
  lemma WholeNarrationMatched(text: string, category: Category, registry: Registry, i: nat, j: nat)
    requires category != Fee
    requires VariationMatches(registry, TrimMemo(text), i, j)
    requires forall i', j' :: i' < i || (i' == i && j' < j) ==> !VariationMatches(registry, TrimMemo(text), i', j')
    requires |registry[i].1[j]| == |TrimMemo(text)|
    ensures Extract(text, category, registry) == Extraction(registry[i].0, "", false)
  {
    RegistryStrategy(text, category, registry, i, j);
    assert TrimMemo(text)[|registry[i].1[j]|..] == [];
    assert TrimSpace([]) == [];
  }

  /** `FirstMatch` finds exactly the first matching pair. */
  lemma FirstMatchIs(registry: Registry, memo: string, i: nat, j: nat)
    requires VariationMatches(registry, memo, i, j)
    requires forall i', j' :: i' < i || (i' == i && j' < j) ==> !VariationMatches(registry, memo, i', j')
    ensures FirstMatch(registry, memo) == Some((i, j))
  {
  }

  lemma ToLowerPrefix(s: string, n: nat)
    requires n <= |s|
    ensures ToLower(s[..n]) == ToLower(s)[..n]
  {
  }

  /**
    Corporate-ending strategy, taken when no variation matches: the first
    ending in list order that occurs decides; the payee is the cleaned text up
    to the end of that ending's last occurrence, so it ends with the ending;
    payee and the untrimmed rest make up the cleaned text, and the memo is
    that rest trimmed.
   */
  lemma CorporateStrategy(text: string, category: Category, registry: Registry, k: nat)
    requires category != Fee
    requires forall i, j :: !VariationMatches(registry, TrimMemo(text), i, j)
    requires k < |CorporateEndings| && ContainsFold(TrimMemo(text), CorporateEndings[k])
    requires NoEndingOccurs(TrimMemo(text), CorporateEndings[..k])
    ensures var m, e, ending := TrimMemo(text), Extract(text, category, registry), CorporateEndings[k];
      && !e.payeeUnknown
      && |e.payee| <= |m| && e.payee + m[|e.payee|..] == m
      && EndsWithFold(e.payee, ending)
      && (forall i :: |e.payee| - |ending| < i ==> !OccursAt(ToLower(m), ToLower(ending), i))
      && e.memo == TrimSpace(m[|e.payee|..])
  {
    CorporateResult(text, category, registry, k);
    EndingCutSplits(TrimMemo(text), CorporateEndings[k]);
  }

  /** Cutting after the last occurrence of `ending` leaves a payee that ends with it and loses nothing. */
  lemma EndingCutSplits(m: string, ending: string)
    requires ContainsFold(m, ending)
    ensures var cut := EndingCut(m, ending);
      && m[..cut] + m[cut..] == m
      && EndsWithFold(m[..cut], ending)
  {
    var cut := EndingCut(m, ending);
    ToLowerPrefix(m, cut);
    assert m[..cut] + m[cut..] == m;
  }

  /** The corporate-ending branch of `Extract`, selected by the first ending `k` that occurs. */
  lemma CorporateResult(text: string, category: Category, registry: Registry, k: nat)
    requires category != Fee
    requires forall i, j :: !VariationMatches(registry, TrimMemo(text), i, j)
    requires k < |CorporateEndings| && ContainsFold(TrimMemo(text), CorporateEndings[k])
    requires NoEndingOccurs(TrimMemo(text), CorporateEndings[..k])
    ensures var m := TrimMemo(text); var cut := EndingCut(m, CorporateEndings[k]);
      Extract(text, category, registry) == Extraction(m[..cut], TrimSpace(m[cut..]), false)
  {
    var m := TrimMemo(text);
    assert FirstMatch(registry, m).None?;
    FirstEndingIs(CorporateEndings, m, k);
  }

  /** `FirstEnding` finds exactly the first ending that occurs. */
  lemma FirstEndingIs(endings: seq<string>, memo: string, k: nat)
    requires k < |endings| && ContainsFold(memo, endings[k])
    requires NoEndingOccurs(memo, endings[..k])
    ensures FirstEnding(endings, memo) == Some(k)
  {
  }

  /** Fallback: with no variation and no ending in the cleaned text, the payee is "Unknown" with an error. */
  lemma FallbackStrategy(text: string, category: Category, registry: Registry)
    requires category != Fee
    requires forall i, j :: !VariationMatches(registry, TrimMemo(text), i, j)
    requires NoEndingOccurs(TrimMemo(text), CorporateEndings)
    ensures Extract(text, category, registry) == Extraction(UnknownPayee, TrimMemo(text), true)
  {
    var m := TrimMemo(text);
    assert FirstMatch(registry, m).None?;
    assert FirstEnding(CorporateEndings, m).None?;
  }

  /** The extractor reports an error exactly when no strategy applies. */
  lemma PayeeUnknownIff(text: string, category: Category, registry: Registry)
    ensures Extract(text, category, registry).payeeUnknown <==>
      && category != Fee
      && (forall i, j :: !VariationMatches(registry, TrimMemo(text), i, j))
      && NoEndingOccurs(TrimMemo(text), CorporateEndings)
  {
  }

  /** Every memo the extractor returns is trimmed and single-spaced, whichever strategy produced it. */
  lemma ExtractMemoClean(text: string, category: Category, registry: Registry)
    ensures Clean(Extract(text, category, registry).memo)
  {
    var m := TrimMemo(text);
    if category != Fee {
      match FirstMatch(registry, m)
      case Some(p) =>
        CleanRest(m, |registry[p.0].1[p.1]|);
      case None =>
        match FirstEnding(CorporateEndings, m)
        case Some(k) =>
          CleanRest(m, EndingCut(m, CorporateEndings[k]));
        case None =>
    }
  }

  /** The trimmed rest of clean text is clean. */
  lemma CleanRest(m: string, n: nat)
    requires Clean(m) && n <= |m|
    ensures Clean(TrimSpace(m[n..]))
  {
    SingleSpacedSlice(m, n, |m|);
    TrimSpaceClean(m[n..]);
  }

  /** An empty narration, with no empty variation in the registry, gives "Unknown", an empty memo and an error. */
  lemma EmptyNarration(category: Category, registry: Registry)
    requires category != Fee
    requires forall i, j :: 0 <= i < |registry| && 0 <= j < |registry[i].1| ==> registry[i].1[j] != ""
    ensures Extract("", category, registry) == Extraction(UnknownPayee, "", true)
  {
    assert TrimMemo("") == "";
    FallbackStrategy("", category, registry);
  }

  /**
    The registry loop of `extractPayeeAndMemo`: entries in order, and within
    an entry its variations in order, stopping at the first variation that is
    a case-insensitive prefix of `memo`.
   */
  method SearchRegistry(registry: Registry, memo: string) returns (found: Option<(nat, nat)>)
    ensures found == FirstMatch(registry, memo)
  {
    var i := 0;
    while i < |registry|
      invariant 0 <= i <= |registry|
      invariant forall i', j :: i' < i ==> !VariationMatches(registry, memo, i', j)
    {
      var (_, variations) := registry[i];
      var j := 0;
      while j < |variations|
        invariant 0 <= j <= |variations|
        invariant forall j' :: j' < j ==> !VariationMatches(registry, memo, i, j')
      {
        var variation := variations[j];
        if HasPrefix(ToLower(memo), ToLower(variation)) {
          FirstMatchIs(registry, memo, i, j);
          return Some((i, j));
        }
        j := j + 1;
      }
      i := i + 1;
    }
    return None;
  }

  /** The loop over the corporate endings: the first one, in list order, that occurs in `memo` ignoring case. */
  method SearchEndings(endings: seq<string>, memo: string) returns (found: Option<nat>)
    ensures found == FirstEnding(endings, memo)
  {
    var k := 0;
    while k < |endings|
      invariant 0 <= k <= |endings|
      invariant NoEndingOccurs(memo, endings[..k])
    {
      var lowerEnding := ToLower(endings[k]);
      if Contains(ToLower(memo), lowerEnding) {
        FirstEndingIs(endings, memo, k);
        return Some(k);
      }
      assert endings[..k + 1] == endings[..k] + [endings[k]];
      k := k + 1;
    }
    assert endings[..k] == endings;
    return None;
  }

  /**
    `extractPayeeAndMemo`: the fee shortcut, then the registry search, then
    the corporate endings, then "Unknown" with an error.
   */
  method ExtractPayeeAndMemo(text: string, category: Category, registry: Registry)
    returns (payee: string, memo: string, payeeUnknown: bool)
    ensures Extraction(payee, memo, payeeUnknown) == Extract(text, category, registry)
    ensures category == Fee ==> payee == Bank && memo == TrimMemo(text) && !payeeUnknown
  {
    if category == Fee {
      FeeShortcut(text, registry);
      return Bank, TrimMemo(text), false;
    }
    payee := UnknownPayee;
    memo := TrimMemo(text);
    var known := SearchRegistry(registry, memo);
    if known.Some? {
      var (i, j) := known.value;
      var variation := registry[i].1[j];
      RegistryStrategy(text, category, registry, i, j);
      return registry[i].0, TrimSpace(memo[|variation|..]), false;
    }
    var corporate := SearchEndings(CorporateEndings, memo);
    if corporate.Some? {
      var ending := CorporateEndings[corporate.value];
      CorporateResult(text, category, registry, corporate.value);
      var payeeEndIndex := LastIndex(ToLower(memo), ToLower(ending)) + |ending|;
      return memo[..payeeEndIndex], TrimSpace(memo[payeeEndIndex..]), false;
    }
    FallbackStrategy(text, category, registry);
    return payee, memo, true;
  }

  // ---------------------------------------------------------------------------
  // Assembling a record

  /** The number of fields of an export row. */
  const RecordLength: nat := 8

  /** `Transaction`; dates and the float amount are whatever the date and float parsers produce. */
  datatype Transaction<D, F> = Transaction(
    bookingDate: D,
    valueDate: D,
    category: Category,
    memo: string,
    amount: F,
    currency: Currency,
    iban: string,
    payee: string)

  /** `parseAmount`: decimal commas become points before the float parser sees the text. */
  function ParseAmount<F>(text: string, parseFloat: string -> Parsed<F>): (r: Parsed<F>)
    ensures exists t :: && |t| == |text|
                        && (forall i :: 0 <= i < |t| ==> t[i] == if text[i] == ',' then '.' else text[i])
                        && r == parseFloat(t)
    ensures ',' !in text ==> r == parseFloat(text)
  {
    parseFloat(ReplaceAll(text, ',', '.'))
  }

  /** `errors.Join`: the errors that occurred, in order; nil (empty) when every one is nil. */
  function JoinErrors(errs: seq<Option<ParseError>>): (r: seq<ParseError>)
    ensures r == [] <==> forall i :: 0 <= i < |errs| ==> errs[i].None?
    ensures forall e :: e in r <==> Some(e) in errs
    ensures |r| <= |errs|
  {
    if errs == [] then []
    else
      assert forall e :: Some(e) in errs <==> errs[0] == Some(e) || Some(e) in errs[1..];
      match errs[0]
      case None => JoinErrors(errs[1..])
      case Some(e) => [e] + JoinErrors(errs[1..])
  }

  /** Joining keeps every error of each part, in order: the join of a concatenation is the concatenation of the joins. */
  lemma {:induction false} JoinErrorsAppend(a: seq<Option<ParseError>>, b: seq<Option<ParseError>>)
    ensures JoinErrors(a + b) == JoinErrors(a) + JoinErrors(b)
  {
    if a == [] {
      assert a + b == b;
    } else {
      assert (a + b)[0] == a[0];
      assert (a + b)[1..] == a[1..] + b;
      JoinErrorsAppend(a[1..], b);
      match a[0]
      case None =>
      case Some(e) =>
        assert [e] + (JoinErrors(a[1..]) + JoinErrors(b)) == ([e] + JoinErrors(a[1..])) + JoinErrors(b);
    }
  }

  /** A single error is kept as it is, and a single nil contributes nothing; with `JoinErrorsAppend` this fixes every join. */
  lemma JoinErrorsSingle(e: ParseError)
    ensures JoinErrors([Some(e)]) == [e]
    ensures JoinErrors([None]) == []
  {
    var one, none: seq<Option<ParseError>> := [Some(e)], [None];
    assert one[1..] == [] && none[1..] == [];
  }

  /** Joining five results gives no error exactly when all five are nil. */
  lemma JoinFiveErrors(a: Option<ParseError>, b: Option<ParseError>, c: Option<ParseError>,
                       d: Option<ParseError>, e: Option<ParseError>)
    ensures JoinErrors([a, b, c, d, e]) == [] <==> a.None? && b.None? && c.None? && d.None? && e.None?
  {
    var errs := [a, b, c, d, e];
    assert errs[0] == a && errs[1] == b && errs[2] == c && errs[3] == d && errs[4] == e;
  }

  /** Every field of an 8-field record that `ParseTransaction` parses is accepted by its parser. */
  predicate FieldsParse<D, F>(record: seq<string>, parseDate: string -> Parsed<D>, parseFloat: string -> Parsed<F>)
    requires |record| == RecordLength
  {
    && parseDate(record[0]).err.None?
    && parseDate(record[1]).err.None?
    && record[2] in CategoryLabels
    && ParseAmount(record[4], parseFloat).err.None?
    && record[5] in CurrencyCodes
  }

  /**
    `ParseTransaction`: a record of the wrong length is rejected outright;
    otherwise every field is parsed, the narration is split into payee and
    memo, and the record is rejected when any field parser failed.  An
    unrecognised payee is not a failure.  Date parsing (a fixed layout in the
    Europe/Berlin zone) and float parsing are the parameters.
   */
  function ParseTransaction<D, F>(
    record: seq<string>,
    registry: Registry,
    parseDate: string -> Parsed<D>,
    parseFloat: string -> Parsed<F>): (r: Result<Transaction<D, F>, seq<ParseError>>)
    ensures |record| != RecordLength ==> r == Failure([InvalidRecordLength(|record|)])
    ensures r.Success? <==> |record| == RecordLength && FieldsParse(record, parseDate, parseFloat)
    ensures r.Failure? ==> r.error != []
    ensures |record| == RecordLength && r.Failure? ==>
      r.error == JoinErrors([parseDate(record[0]).err, parseDate(record[1]).err, ParseTransactionCategory(record[2]).err,
                             ParseAmount(record[4], parseFloat).err, ParseCurrency(record[5]).err])
  {
    if |record| != RecordLength then Failure([InvalidRecordLength(|record|)])
    else
      var bookingDate := parseDate(record[0]);
      var valueDate := parseDate(record[1]);
      var category := ParseTransactionCategory(record[2]);
      var extraction := Extract(record[3], category.value, registry);
      var amount := ParseAmount(record[4], parseFloat);
      var currency := ParseCurrency(record[5]);
      var transaction := Transaction(
        bookingDate.value, valueDate.value, category.value, extraction.memo,
        amount.value, currency.value, record[6], extraction.payee);
      var errs := JoinErrors([bookingDate.err, valueDate.err, category.err, amount.err, currency.err]);
      JoinFiveErrors(bookingDate.err, valueDate.err, category.err, amount.err, currency.err);
      if errs != [] then Failure(errs) else Success(transaction)
  }

  /**
    What a successful `ParseTransaction` holds: the parsed dates and amount,
    the category and currency the labels name, the account field unchanged,
    and the payee and memo of the extractor, whether or not it recognised the
    payee.
   */
  lemma ParsedTransactionFields<D, F>(
    record: seq<string>,
    registry: Registry,
    parseDate: string -> Parsed<D>,
    parseFloat: string -> Parsed<F>)
    requires ParseTransaction(record, registry, parseDate, parseFloat).Success?
    ensures var t := ParseTransaction(record, registry, parseDate, parseFloat).value;
      var e := Extract(record[3], t.category, registry);
      && t.bookingDate == parseDate(record[0]).value
      && t.valueDate == parseDate(record[1]).value
      && 0 <= t.category < |CategoryLabels| && CategoryLabels[t.category] == record[2]
      && t.amount == ParseAmount(record[4], parseFloat).value
      && 0 <= t.currency < |CurrencyCodes| && CurrencyCodes[t.currency] == record[5]
      && t.iban == record[6]
      && t.payee == e.payee && t.memo == e.memo
  {
  }

  /** An unrecognised payee never makes a record fail: it is emitted with payee "Unknown" and the cleaned narration as memo. */
  lemma UnknownPayeeNotFatal<D, F>(
    record: seq<string>,
    registry: Registry,
    parseDate: string -> Parsed<D>,
    parseFloat: string -> Parsed<F>)
    requires |record| == RecordLength && FieldsParse(record, parseDate, parseFloat)
    requires Extract(record[3], ParseTransactionCategory(record[2]).value, registry).payeeUnknown
    ensures var r := ParseTransaction(record, registry, parseDate, parseFloat);
      r.Success? && r.value.payee == UnknownPayee && r.value.memo == TrimMemo(record[3])
  {
  }
}
