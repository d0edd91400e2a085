# Bank-statement transactions: payee and memo extraction

This project models the core of a converter that turns rows of a bank's
statement export (Commerzbank, semicolon-separated) into transaction records
for a budgeting tool, and proves properties of that model in Dafny. The core
is `transaction/transaction.go`. It does four things:

- `trimMemo` cleans a narration. It cuts off the end-to-end reference, which
  is the regex ` End-to-End-Ref\.: .*$`. It then collapses every run of RE2
  white space (`\s`) into one space and trims the text with
  `strings.TrimSpace`.
- `extractPayeeAndMemo` splits the cleaned narration into a payee and a memo.
  It tries these rules in order:
  1. Fees are paid to the bank.
  2. The registry of known payees is searched. The first variation that is a
     case-insensitive prefix of the memo gives the canonical payee.
  3. The list of legal-form endings ("GmbH", "AG", ...) is searched. The first
     ending in the list that occurs anywhere, ignoring case, cuts the text
     after that ending's last occurrence.
  4. Otherwise the payee is "Unknown" and the call reports an error.
- `parseTransactionCategory` and `parseCurrency` map labels to enumeration
  codes, and return -1 with an error for an unknown label.
- `ParseTransaction` checks that a record has 8 fields, parses each field,
  and joins the field errors with `errors.Join`. An unknown payee is logged,
  not returned as an error.

Modules:

- `Wrappers` (`wrappers.dfy`) holds `Option` and `Result`.
- `Strings` (`strings.dfy`) models the parts of Go's `strings`, `unicode` and
  `regexp` that the code relies on: `TrimSpace` (with `unicode.IsSpace`),
  `HasPrefix`, `Contains`, `LastIndex`, `ToLower` and single-character
  `Replace`.
- `Memo` (`memo.dfy`) models `trimMemo`, together with the invariant that
  every memo is trimmed and single-spaced.
- `Transaction` (`transaction.dfy`) holds the parsers and the extractor. The
  extractor is specified twice:
  - the function `Extract`, which is the decision procedure;
  - the method `ExtractPayeeAndMemo`, whose loops mirror the Go loops and
    which is proved equal to `Extract`.
  Each strategy has a lemma that states what it returns.
- `Scenarios` (`scenarios.dfy`) proves two concrete narrations through the
  corporate-ending rule.

The registry file, the date parser and the float parser are parameters (see
"Left out").

Behaviour of the code worth knowing:

- **Corporate endings.** The loop at `transaction/transaction.go:151-156`
  returns on the first listed ending that occurs. That is neither the
  rightmost occurrence nor the last listed ending that occurs:
  `Scenarios.FirstListedEndingWins` shows that "X GmbH AG" gives payee
  "X GmbH" and memo "AG".
- **Substring matching.** Endings are matched as plain substrings, so "AG"
  fires inside "Tage" (`Scenarios.EndingInsideWord`).
- **Reference removal.** The regex at `transaction/transaction.go:163`
  matches only when the marker is preceded by a plain space and nothing after
  it contains a newline. So the marker stays in the memo when a newline
  follows it, or when a tab precedes it (the tab later becomes a space).
  `Memo.NoNewlineNoMarker` states that in newline-free text the marker is gone
  after the cut, before white space is collapsed. For the same reason
  `trimMemo` is not idempotent in general: "a\tEnd-to-End-Ref.: x" becomes
  "a End-to-End-Ref.: x", which a second pass cuts to "a".
- **Registry loading.** `loadPayeeVariations` calls `log.Fatalf` when the
  file cannot be opened (`transaction/transaction.go:172-175`). It returns an
  empty registry only when decoding fails.
- **White space.** RE2's `\s` is tab, newline, form feed, carriage return and
  space. It is narrower than `unicode.IsSpace`, which `strings.TrimSpace`
  uses. The model keeps both: `Strings.IsRegexSpace` and `Strings.IsSpace`.

## Model

| member | source | states |
|---|---|---|
| Strings.LastIndex | transaction/transaction.go:154 | -1 exactly when the substring does not occur; otherwise the index is an occurrence and no occurrence starts after it |
| Strings.TrimBounds | transaction/transaction.go:167 | the cut points of `strings.TrimSpace`: everything before the first and from the second on is white space, and the kept text starts and ends with a non-space |
| Strings.TrimSpaceCuts | transaction/transaction.go:167 | `strings.TrimSpace` returns a slice of its input with only white space before and after it, and the slice neither starts nor ends with white space: exactly the leading and trailing white space is removed |
| Strings.ReplaceAll | transaction/transaction.go:83 | same length; each occurrence of the character is replaced and nothing else changes; the replaced character no longer occurs; text without it is unchanged |
| Strings.ToLower | transaction/transaction.go:140 | same length; every ASCII capital is mapped to its small letter, every other character is kept |
| Memo.FirstRefMatchFrom | transaction/transaction.go:163-164 | the leftmost position from which the reference regex matches: a match, with no match before it; none means no match anywhere |
| Memo.StripRef | transaction/transaction.go:163-164 | the result is a prefix of the text; either the whole text, when the regex matches nowhere, or the text before the leftmost match |
| Memo.CollapseSpace | transaction/transaction.go:165-166 | empty exactly when the input is; starts, and ends, with white space exactly when the input does; the result is single-spaced (only plain spaces, never two in a row) |
| Memo.CollapseRunInPlace | transaction/transaction.go:165-166 | a maximal run of white space between two non-spaces (or the ends of the text) becomes one space in its place, with both sides collapsed on their own |
| Memo.CollapseRun | transaction/transaction.go:165-166 | a run of white space at the start, followed by a non-space or nothing, becomes one space |
| Memo.CollapseSpaceKeepsText | transaction/transaction.go:165-166 | collapsing white space keeps every other character, in order |
| Memo.CollapseSpaceFixpoint | transaction/transaction.go:165-166 | single-spaced text is left unchanged |
| Memo.TrimSpaceClean | transaction/transaction.go:167 | trimming single-spaced text gives trimmed, single-spaced text |
| Memo.TrimSpaceFixpoint | transaction/transaction.go:167 | text already trimmed is unchanged by `strings.TrimSpace` |
| Memo.TrimMemo | transaction/transaction.go:162-168 | every result of `trimMemo` is trimmed and single-spaced; what it keeps is stated by Memo.RefTailRemoved, Memo.NoNewlineNoMarker, Memo.CollapseRunInPlace and Memo.TrimMemoFixpoint |
| Memo.TrimMemoFixpoint | transaction/transaction.go:162-168 | clean text with no reference match is left unchanged (trimMemo is not idempotent in general: a tab before the marker becomes a space that a second pass matches) |
| Memo.RefTailRemoved | transaction/transaction.go:163-164 | when the marker is followed by newline-free text to the end, the memo is the cleaned form of a prefix of the text before the marker |
| Memo.NoNewlineNoMarker | transaction/transaction.go:163-164 | in text without newlines, no marker is left after the cut |
| Transaction.ParseTransactionCategory | transaction/transaction.go:96-111 | success exactly for the five labels, and the code's label is the input; otherwise -1 with an unknown-category error |
| Transaction.ParseCurrency | transaction/transaction.go:114-122 | success exactly for "EUR" and "USD", and the code's label is the input; otherwise -1 with an unknown-currency error |
| Transaction.CategoryLabelsDistinct | transaction/transaction.go:98-109 | two accepted labels give the same category exactly when they are equal |
| Transaction.FirstVariation | transaction/transaction.go:139-145 | the first variation that is a case-insensitive prefix of the memo; none means no variation is |
| Transaction.FirstMatch | transaction/transaction.go:138-146 | the first matching (entry, variation) pair, entries in registry order and variations in list order; none means nothing matches |
| Transaction.FirstMatchIs | transaction/transaction.go:138-146 | a matching pair with no matching pair before it is the one found |
| Transaction.SearchRegistry | transaction/transaction.go:138-146 | the nested loops return exactly the first matching pair |
| Transaction.FirstEnding | transaction/transaction.go:151-157 | the first ending in list order that occurs, ignoring case, with none of the earlier ones occurring; none means no ending occurs |
| Transaction.FirstEndingIs | transaction/transaction.go:151-156 | an ending that occurs, with no earlier ending occurring, is the one found |
| Transaction.SearchEndings | transaction/transaction.go:151-157 | the loop returns exactly the first ending that occurs |
| Transaction.EndingCut | transaction/transaction.go:154 | the cut ends the last case-insensitive occurrence of the ending; no occurrence starts later |
| Transaction.EndingCutSplits | transaction/transaction.go:154-155 | payee and rest put back together give the memo, and the payee ends with the ending, ignoring case |
| Transaction.Extract | transaction/transaction.go:125-159 | the decision procedure of `extractPayeeAndMemo`: an error only outside fees, and then with payee "Unknown" and the cleaned text as memo; the memo is never longer than the cleaned text. Each strategy is stated by Transaction.FeeShortcut, Transaction.RegistryStrategy, Transaction.CorporateStrategy and Transaction.FallbackStrategy |
| Transaction.ExtractPayeeAndMemo | transaction/transaction.go:125-159 | the method's payee, memo and error flag are those of the decision procedure `Extract`; a fee gives the bank and the cleaned text without error |
| Transaction.FeeShortcut | transaction/transaction.go:126-130 | a fee is paid to the bank with the cleaned text as memo and no error, whatever the registry holds |
| Transaction.RegistryStrategy | transaction/transaction.go:138-144 | when variation j of entry i is the first match, the payee is entry i's canonical name and the memo is the trimmed rest after the variation's length |
| Transaction.WholeNarrationMatched | transaction/transaction.go:138-144 | a cleaned narration that is exactly the first matching variation, ignoring case, gives the canonical payee and an empty memo |
| Transaction.CorporateStrategy | transaction/transaction.go:150-156 | with no variation matching and ending k the first that occurs: no error, the payee is a prefix of the cleaned text that ends with the ending, no later occurrence exists, and the memo is the trimmed rest |
| Transaction.CorporateResult | transaction/transaction.go:150-156 | the corporate-ending branch cuts the cleaned text at the end of the last occurrence of the first ending that occurs |
| Transaction.FallbackStrategy | transaction/transaction.go:131-158 | with no variation and no ending occurring, the payee is "Unknown", the memo is the cleaned text, and an error is reported |
| Transaction.PayeeUnknownIff | transaction/transaction.go:125-159 | an error is reported exactly when the category is not a fee, no variation matches and no ending occurs |
| Transaction.ExtractMemoClean | transaction/transaction.go:125-159 | every memo the extractor returns is trimmed and single-spaced, whichever strategy produced it |
| Transaction.EmptyNarration | transaction/transaction.go:131-158 | an empty narration that is not a fee, with no empty variation in the registry, gives "Unknown", an empty memo and an error |
| Transaction.ParseAmount | transaction/transaction.go:81-84 | the float parser receives the text with every comma replaced by a point and every other character kept (so "-37,9" is parsed as "-37.9"); text without a comma reaches it unchanged |
| Transaction.JoinErrors | transaction/transaction.go:75-77 | empty exactly when every error is nil; holds exactly the errors that occurred; never longer than its input |
| Transaction.JoinErrorsAppend | transaction/transaction.go:75-77 | the join of a concatenation is the concatenation of the joins, so every non-nil error is kept, in argument order and with repeats |
| Transaction.JoinErrorsSingle | transaction/transaction.go:75-77 | a single non-nil error is kept as it is and a single nil contributes nothing; with JoinErrorsAppend this determines every join |
| Transaction.JoinFiveErrors | transaction/transaction.go:75 | joining the five field errors gives no error exactly when all five are nil |
| Transaction.ParseTransaction | transaction/transaction.go:50-79 | a record whose length is not 8 fails with a length error; a record succeeds exactly when it has 8 fields and every field parser accepts its field; an 8-field failure carries the joined errors of the five field parsers, in field order, and never none |
| Transaction.ParsedTransactionFields | transaction/transaction.go:56-78 | a successful record holds the parsed dates and amount, the category and currency that its labels name, the account field unchanged, and the extractor's payee and memo |
| Transaction.UnknownPayeeNotFatal | transaction/transaction.go:59-78 | a record whose fields all parse succeeds even when no payee is recognised, with payee "Unknown" and the cleaned narration as memo |
| Scenarios.EndingInsideWord | transaction/transaction.go:151-155 | "Tage" as a transfer is split into payee "Tag" and memo "e", because "AG" matches inside the word |
| Scenarios.FirstListedEndingWins | transaction/transaction.go:150-156 | "X GmbH AG" as a transfer gives payee "X GmbH" and memo "AG": the first listed ending that occurs wins, not the rightmost one or the last one in the list |

## Left out

- `loadPayeeVariations` (`transaction/transaction.go:170-190`) is not modelled: it is file I/O and JSON decoding. The registry is a parameter of the extractor. The `log.Fatalf` on an unopenable file is not modelled. A decode error yields an empty registry, which the model covers as `[]`.
- Go map iteration order is not modelled. Go ranges over the registry map in a random order, while the model fixes an order as a sequence. Every lemma holds for every order; which entry is "first" depends on the run in Go.
- `parseDate` (`transaction/transaction.go:86-93`) is a parameter. Its fixed layout and the Europe/Berlin time-zone database are outside the model.
- `strconv.ParseFloat` is a parameter. Floating point is not modelled; only the comma-to-point rewrite is.
- The `log.Println` calls (lines 63 and 134) are not modelled: they only produce output.
- Error texts are not modelled. Each error is a constructor of `ParseError`. The extractor's "payee unknown" error is the `payeeUnknown` flag. A `nil` transaction on failure is the `Failure` case of `Result`.
- Strings.ToLower: lower-cases ASCII letters only. Go's `strings.ToLower` also lower-cases other Unicode letters, such as "Ü", so case-insensitive matching of non-ASCII variations differs. All corporate endings are ASCII.
- Indexing is by code points, whereas Go slices strings by UTF-8 byte offsets. The two agree whenever lower-casing keeps the byte length, which is always the case under ASCII-only lower-casing.
- The regex engine is not modelled in general. Only the two patterns the code uses are modelled, by their meaning.
- `csv.go` and `main.go` are not part of this model: CSV framing, command-line handling and output writing.
