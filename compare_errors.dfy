/** How the portfolio builder turns a failed comparison request into the
    message it shows (`handleCompare`'s `catch` block in
    `src/components/PortfolioBuilder.jsx`): the failed-symbol extraction
    with the regular expression `symbol[s]?:?\s*([A-Z]+(?:,\s*[A-Z]+)*)`
    and the fixed order in which the message is chosen.

    The source applies the expression with the `i` flag, which also makes
    the captured group accept lower-case words; the matcher below takes
    the group's letter class as a parameter, so that the expression as
    written and the upper-case-only group it evidently means can be
    compared. */
module CompareErrors {
  import opened Wrappers
  import opened Strings

  /** `error.response.data`, as far as it is read. */
  datatype ErrorBody = ErrorBody(detail: Option<string>, message: Option<string>, failedSymbols: Option<seq<string>>)

  /** A rejected request: `response` is `None` when there is no
      `response.data`; `message` is `error.message`. */
  datatype CompareError = CompareError(response: Option<ErrorBody>, message: Option<string>)

  const EmptyBody := ErrorBody(None, None, None)

  /** `errorData?.detail || errorData?.message || error?.message || ''`. */
  function ErrorText(e: CompareError): (r: string)
    ensures var b := e.response.GetOr(EmptyBody);
      (b.detail.Some? && b.detail.value != "" ==> r == b.detail.value)
      && (r == "" <==> !(b.detail.Some? && b.detail.value != "") && !(b.message.Some? && b.message.value != "")
                       && !(e.message.Some? && e.message.value != ""))
  {
    var b := e.response.GetOr(EmptyBody);
    if b.detail.Some? && b.detail.value != "" then b.detail.value
    else if b.message.Some? && b.message.value != "" then b.message.value
    else if e.message.Some? && e.message.value != "" then e.message.value
    else ""
  }

  // ---- The regular expression ----

  predicate IsUpperLetter(c: char) { 'A' <= c <= 'Z' }

  /** The group's letter class `[A-Z]`: under the `i` flag (`caseless`)
      any ASCII letter, otherwise the upper-case ones. */
  predicate GroupLetter(c: char, caseless: bool) {
    if caseless then IsLetter(c) else IsUpperLetter(c)
  }

  predicate AllGroupLetters(s: string, caseless: bool) {
    forall k :: 0 <= k < |s| ==> GroupLetter(s[k], caseless)
  }

  /** The end of the run of white space starting at `i`. */
  function SpacesEnd(s: string, i: nat): (r: nat)
    requires i <= |s|
    ensures i <= r <= |s| && (r < |s| ==> !IsSpace(s[r]))
    ensures forall k :: i <= k < r ==> IsSpace(s[k])
    decreases |s| - i
  {
    if i < |s| && IsSpace(s[i]) then SpacesEnd(s, i + 1) else i
  }

  /** The end of the run of group letters starting at `i` (`[A-Z]+`, greedy). */
  function LettersEnd(s: string, i: nat, caseless: bool): (r: nat)
    requires i <= |s|
    ensures i <= r <= |s| && (r < |s| ==> !GroupLetter(s[r], caseless))
    ensures forall k :: i <= k < r ==> GroupLetter(s[k], caseless)
    decreases |s| - i
  {
    if i < |s| && GroupLetter(s[i], caseless) then LettersEnd(s, i + 1, caseless) else i
  }

  /** `:?\s*` followed by a group letter: where the group starts, if it can. */
  function RestStart(s: string, q: nat, caseless: bool): (r: Option<nat>)
    requires q <= |s|
    ensures r.Some? ==> r.value < |s| && GroupLetter(s[r.value], caseless)
  {
    var q1 := if q < |s| && s[q] == ':' then q + 1 else q;
    var q2 := SpacesEnd(s, q1);
    if q2 < |s| && GroupLetter(s[q2], caseless) then Some(q2) else None
  }

  /** `[s]?` (either case, under the `i` flag) is greedy but gives the `s`
      back when the rest cannot match after it. */
  function GroupStart(s: string, q: nat, caseless: bool): (r: Option<nat>)
    requires q <= |s|
    ensures r.Some? ==> r.value < |s| && GroupLetter(s[r.value], caseless)
  {
    if q < |s| && UpperChar(s[q]) == 'S' && RestStart(s, q + 1, caseless).Some? then RestStart(s, q + 1, caseless)
    else RestStart(s, q, caseless)
  }

  /** `(?:,\s*[A-Z]+)*`, greedy: the end of the group from position `e`. */
  function RepEnd(s: string, e: nat, caseless: bool): (r: nat)
    requires e <= |s|
    ensures e <= r <= |s|
    decreases |s| - e
  {
    if e < |s| && s[e] == ',' then
      var j := SpacesEnd(s, e + 1);
      if j < |s| && GroupLetter(s[j], caseless) then RepEnd(s, LettersEnd(s, j, caseless), caseless) else e
    else e
  }

  /** `symbol`, in any case, spelled at `p`. */
  predicate SymbolWordAt(s: string, p: nat) {
    p + 6 <= |s| && Upper(s[p..p + 6]) == "SYMBOL"
  }

  /** The bounds of the captured group of a match starting at `p`. */
  function MatchAt(s: string, p: nat, caseless: bool): (r: Option<(nat, nat)>)
    requires p <= |s|
    ensures r.Some? ==> (r.value.0 < |s| && GroupLetter(s[r.value.0], caseless)
                         && r.value.1 == RepEnd(s, LettersEnd(s, r.value.0, caseless), caseless))
  {
    if SymbolWordAt(s, p) then
      match GroupStart(s, p + 6, caseless)
      case Some(g) => Some((g, RepEnd(s, LettersEnd(s, g, caseless), caseless)))
      case None => None
    else None
  }

  /** The leftmost match at or after `p`: the group's bounds. */
  function FirstMatch(s: string, p: nat, caseless: bool): (r: Option<(nat, nat)>)
    requires p <= |s|
    ensures r.Some? ==> (r.value.0 < |s| && GroupLetter(s[r.value.0], caseless)
                         && r.value.1 == RepEnd(s, LettersEnd(s, r.value.0, caseless), caseless))
    decreases |s| - p
  {
    if p + 6 > |s| then None
    else if MatchAt(s, p, caseless).Some? then MatchAt(s, p, caseless)
    else FirstMatch(s, p + 1, caseless)
  }

  /** `text.match(...)[1].split(',').map(s => s.trim())`, or nothing
      without a match. */
  function Extract(text: string, caseless: bool): seq<string> {
    match FirstMatch(text, 0, caseless)
    case Some(b) =>
      TrimAll(Split(text[b.0..b.1], ","))
    case None => []
  }

  /** `.map(s => s.trim())`. */
  function TrimAll(xs: seq<string>): (r: seq<string>)
    ensures |r| == |xs|
  {
    if xs == [] then [] else [Trim(xs[0])] + TrimAll(xs[1..])
  }

  /** The extraction as the source writes it, with the `i` flag on the group. */
  function ExtractedSymbolsAsWritten(text: string): seq<string> {
    Extract(text, true)
  }

  /** The extraction with an upper-case-only group; the model uses this one. */
  function ExtractedSymbols(text: string): seq<string> {
    Extract(text, false)
  }

  /** `failed_symbols` when the response carries one (even an empty list),
      otherwise the symbols named in a non-empty error text. */
  function FailedSymbolsWith(e: CompareError, caseless: bool): (r: seq<string>)
    ensures e.response.GetOr(EmptyBody).failedSymbols.Some? ==> r == e.response.GetOr(EmptyBody).failedSymbols.value
    ensures e.response.GetOr(EmptyBody).failedSymbols.None? && ErrorText(e) == "" ==> r == []
  {
    var b := e.response.GetOr(EmptyBody);
    if b.failedSymbols.Some? then b.failedSymbols.value
    else if ErrorText(e) != "" then Extract(ErrorText(e), caseless)
    else []
  }

  function FailedSymbols(e: CompareError): seq<string> {
    FailedSymbolsWith(e, false)
  }

  // ---- What the extraction yields ----

  lemma NoCommaInLetters(s: string, j: nat, e: nat, caseless: bool)
    requires j <= e <= |s| && forall k :: j <= k < e ==> GroupLetter(s[k], caseless)
    ensures ',' !in s[j..e] && AllLetters(s[j..e]) && AllGroupLetters(s[j..e], caseless)
  {
    assert forall c :: c in s[j..e] ==> GroupLetter(c, caseless);
  }

  lemma LettersNoComma(x: string)
    requires AllLetters(x)
    ensures ',' !in x
  {
    assert forall c :: c in x ==> IsLetter(c);
  }

  lemma SplitNoComma(x: string)
    requires ',' !in x
    ensures Split(x, ",") == [x]
  {
    SplitGlue(x, "", ",");
    assert x + "" == x;
  }

  /** A part that, trimmed, is a non-empty run of group letters. */
  predicate LetterPart(x: string, caseless: bool) {
    Trim(x) != "" && AllGroupLetters(Trim(x), caseless)
  }

  /** Every part is a letter part. */
  predicate LetterParts(xs: seq<string>, caseless: bool) {
    forall i :: 0 <= i < |xs| ==> LetterPart(xs[i], caseless)
  }

  /** A separator at the front splits off an empty first part. */
  lemma SplitAtSeparator(sep: string, t: string)
    requires sep != []
    ensures Split(sep + t, sep) == [""] + Split(t, sep)
  {
    assert StartsWith(sep + t, sep);
    assert (sep + t)[|sep|..] == t;
  }

  lemma SpacesHoldNoComma(sp: string)
    requires forall k :: 0 <= k < |sp| ==> IsSpace(sp[k])
    ensures ',' !in sp
  {
  }

  /** A comma followed by white space starts a new part that the white
      space glues onto. */
  lemma CommaGlue(x: string, sp: string, t: string, sep: string)
    requires sep == "," && ',' !in x && forall k :: 0 <= k < |sp| ==> IsSpace(sp[k])
    ensures Split(x + (sep + (sp + t)), sep) == [x] + ([sp + Split(t, sep)[0]] + Split(t, sep)[1..])
  {
    SplitGlue(x, sep + (sp + t), sep);
    SplitAtSeparator(sep, sp + t);
    SpacesHoldNoComma(sp);
    SplitGlue(sp, t, sep);
    assert x + "" == x;
  }

  /** The first part of a group: a non-empty run of group letters. */
  predicate HeadPart(x: string, caseless: bool) {
    x != [] && AllLetters(x) && AllGroupLetters(x, caseless)
  }

  /** The parts a group splits into: a head part, and letter parts throughout. */
  predicate GroupSplit(xs: seq<string>, caseless: bool) {
    xs != [] && HeadPart(xs[0], caseless) && LetterParts(xs, caseless)
  }

  lemma PartsCons(x: string, sp: string, ys: seq<string>, caseless: bool)
    requires HeadPart(x, caseless)
    requires forall k :: 0 <= k < |sp| ==> IsSpace(sp[k])
    requires GroupSplit(ys, caseless)
    ensures GroupSplit([x] + ([sp + ys[0]] + ys[1..]), caseless)
  {
    TrimSpacesThenLetters(sp, ys[0]);
    PartsReplaceHead(sp + ys[0], ys, caseless);
    LettersTrim(x);
    PartsPrepend(x, [sp + ys[0]] + ys[1..], caseless);
  }

  lemma LettersTrim(x: string)
    requires AllLetters(x)
    ensures Trim(x) == x
  {
    assert NoSpace(x);
  }

  lemma PartsReplaceHead(y: string, ys: seq<string>, caseless: bool)
    requires ys != [] && LetterPart(y, caseless) && LetterParts(ys, caseless)
    ensures LetterParts([y] + ys[1..], caseless)
  {
    PartsPrepend(y, ys[1..], caseless);
  }

  lemma PartsPrepend(x: string, zs: seq<string>, caseless: bool)
    requires LetterPart(x, caseless) && LetterParts(zs, caseless)
    ensures LetterParts([x] + zs, caseless)
  {
    var xs := [x] + zs;
    forall i | 0 <= i < |xs| ensures LetterPart(xs[i], caseless) {
      if i > 0 {
        assert xs[i] == zs[i - 1];
      }
    }
  }

  lemma SliceAround(s: string, j: nat, e: nat, k: nat, end: nat)
    requires j <= e < k <= end <= |s|
    ensures s[j..end] == s[j..e] + ([s[e]] + (s[e + 1..k] + s[k..end]))
  {
  }

  /** A group without a comma is one part. */
  lemma SingleGroup(x: string, caseless: bool)
    requires HeadPart(x, caseless) && ',' !in x
    ensures GroupSplit(Split(x, ","), caseless)
  {
    SplitNoComma(x);
    LettersTrim(x);
    assert LetterParts([x], caseless);
  }

  /** A comma and white space in front of a group's remaining parts. */
  lemma GroupStep(s: string, j: nat, e: nat, k: nat, end: nat, caseless: bool)
    requires j < e < k <= end <= |s| && s[e] == ','
    requires forall q :: e + 1 <= q < k ==> IsSpace(s[q])
    requires HeadPart(s[j..e], caseless) && ',' !in s[j..e]
    requires GroupSplit(Split(s[k..end], ","), caseless)
    ensures GroupSplit(Split(s[j..end], ","), caseless)
  {
    var sp := s[e + 1..k];
    SliceAround(s, j, e, k, end);
    assert [s[e]] == ",";
    CommaGlue(s[j..e], sp, s[k..end], ",");
    PartsCons(s[j..e], sp, Split(s[k..end], ","), caseless);
  }

  /** Splitting a group on ',' gives a first part of letters and further
      parts of white space followed by letters; trimming each gives a
      non-empty run of group letters. */
  lemma {:induction false} GroupParts(s: string, j: nat, e: nat, caseless: bool)
    requires j < e <= |s| && forall k :: j <= k < e ==> GroupLetter(s[k], caseless)
    ensures GroupSplit(Split(s[j..RepEnd(s, e, caseless)], ","), caseless)
    decreases |s| - e
  {
    var end := RepEnd(s, e, caseless);
    NoCommaInLetters(s, j, e, caseless);
    if end == e {
      SingleGroup(s[j..e], caseless);
    } else {
      var k := SpacesEnd(s, e + 1);
      var m := LettersEnd(s, k, caseless);
      assert s[e] == ',' && k < |s| && GroupLetter(s[k], caseless) && end == RepEnd(s, m, caseless);
      GroupParts(s, k, m, caseless);
      GroupStep(s, j, e, k, end, caseless);
    }
  }

  /** Every symbol taken from an error text is a non-empty run of group
      letters: upper-case letters for the corrected extraction, letters of
      either case for the one as written. */
  lemma ExtractedAreGroupLetters(text: string, caseless: bool)
    ensures forall x :: x in Extract(text, caseless) ==> x != "" && AllGroupLetters(x, caseless)
  {
    match FirstMatch(text, 0, caseless)
    case Some(b) =>
      GroupParts(text, b.0, LettersEnd(text, b.0, caseless), caseless);
      TrimLetterParts(Split(text[b.0..b.1], ","), caseless);
    case None =>
  }

  /** Trimming letter parts gives non-empty runs of group letters. */
  lemma {:induction false} TrimLetterParts(xs: seq<string>, caseless: bool)
    requires LetterParts(xs, caseless)
    ensures forall x :: x in TrimAll(xs) ==> x != "" && AllGroupLetters(x, caseless)
  {
    if xs != [] {
      assert LetterPart(xs[0], caseless);
      assert LetterParts(xs[1..], caseless) by {
        forall i | 0 <= i < |xs[1..]| ensures LetterPart(xs[1..][i], caseless) {
          assert xs[1..][i] == xs[i + 1];
        }
      }
      TrimLetterParts(xs[1..], caseless);
    }
  }

  /** A match whose group is one run of letters yields that run alone. */
  lemma ExtractOnePart(text: string, caseless: bool, g: nat, e: nat)
    requires g <= e <= |text| && FirstMatch(text, 0, caseless) == Some((g, e)) && AllLetters(text[g..e])
    ensures Extract(text, caseless) == [text[g..e]]
  {
    var x := text[g..e];
    assert Extract(text, caseless) == TrimAll(Split(x, ","));
    LettersNoComma(x);
    SplitNoComma(x);
    LettersTrim(x);
    assert TrimAll([x]) == [Trim(x)] + TrimAll([]);
  }

  /** The corrected extraction yields upper-case tickers only. */
  lemma ExtractedSymbolsAreUpperCase(text: string)
    ensures forall x :: x in ExtractedSymbols(text) ==> x != "" && forall k :: 0 <= k < |x| ==> IsUpperLetter(x[k])
  {
    ExtractedAreGroupLetters(text, false);
  }

  lemma {:induction false} NoMatchFrom(s: string, p: nat, caseless: bool)
    requires p <= |s|
    requires forall q: nat :: p <= q ==> !SymbolWordAt(s, q)
    ensures FirstMatch(s, p, caseless) == None
    decreases |s| - p
  {
    if p + 6 <= |s| {
      NoMatchFrom(s, p + 1, caseless);
    }
  }

  /** A text that never spells "symbol", in any case, names no symbols. */
  lemma NoSymbolWordNothingExtracted(text: string, caseless: bool)
    requires forall q: nat :: !SymbolWordAt(text, q)
    ensures Extract(text, caseless) == []
  {
    NoMatchFrom(text, 0, caseless);
  }

  // ---- The message ----

  const GenericMessage := "Failed to compare portfolio. Please verify all ETF symbols are correct and try again."
  const NotFoundMessage := "One or more ETFs could not be found. Please verify all ETF symbols are correct and try again."

  function FailedListMessage(failed: seq<string>): string {
    "Failed to fetch data for " + Join(failed, ", ") + ". Please check the symbols and try again."
  }

  function CouldNotFetchMessage(symbols: seq<string>): string {
    "Failed to fetch data for " + Join(symbols, ", ") + ". Please verify the ETF symbols are correct and try again."
  }

  /** The message for a given list of failed symbols and error text: the
      first rule that applies, in a fixed order. `symbols` are the symbols
      of the allocations that were sent. */
  function MessageFor(failed: seq<string>, text: string, symbols: seq<string>): (r: string)
    ensures |failed| > 0 ==> r == FailedListMessage(failed)
    ensures |failed| == 0 && Contains(text, "Could not fetch data") ==> r == CouldNotFetchMessage(symbols)
    ensures (|failed| == 0 && !Contains(text, "Could not fetch data")
             && (Contains(text, "404") || Contains(text, "not found"))) ==> r == NotFoundMessage
    ensures (|failed| == 0 && !Contains(text, "Could not fetch data") && !Contains(text, "404")
             && !Contains(text, "not found") && text != "") ==> r == "Failed to compare portfolio: " + text
    ensures |failed| == 0 && text == "" ==> r == GenericMessage
  {
    if |failed| > 0 then FailedListMessage(failed)
    else if Contains(text, "Could not fetch data") then CouldNotFetchMessage(symbols)
    else if Contains(text, "404") || Contains(text, "not found") then NotFoundMessage
    else if text != "" then "Failed to compare portfolio: " + text
    else GenericMessage
  }

  /** The message the `catch` block shows, with the corrected extraction. */
  function FailureText(e: CompareError, symbols: seq<string>): string {
    MessageFor(FailedSymbols(e), ErrorText(e), symbols)
  }

  /** The message as the source computes it. */
  function FailureTextAsWritten(e: CompareError, symbols: seq<string>): string {
    MessageFor(FailedSymbolsWith(e, true), ErrorText(e), symbols)
  }

  /** The `catch` block: `failedSymbols` and `userMessage` are reassigned
      through the rules in order. `caseless` is the regex's letter class:
      `true` is the source's `i` flag, `false` the corrected group. */
  method FailureMessage(e: CompareError, symbols: seq<string>, caseless: bool) returns (userMessage: string)
    ensures userMessage == MessageFor(FailedSymbolsWith(e, caseless), ErrorText(e), symbols)
    ensures caseless ==> userMessage == FailureTextAsWritten(e, symbols)
    ensures !caseless ==> userMessage == FailureText(e, symbols)
  {
    var errorMessage := ErrorText(e);
    var failedSymbols := CollectFailedSymbols(e, errorMessage, caseless);
    userMessage := ChooseMessage(failedSymbols, errorMessage, symbols);
  }

  /** The first half of the block: the field, or else the symbols named in
      a non-empty error text. */
  method CollectFailedSymbols(e: CompareError, errorMessage: string, caseless: bool) returns (failedSymbols: seq<string>)
    requires errorMessage == ErrorText(e)
    ensures failedSymbols == FailedSymbolsWith(e, caseless)
    ensures caseless ==> failedSymbols == FailedSymbolsWith(e, true)
    ensures !caseless ==> failedSymbols == FailedSymbols(e)
  {
    var errorData := e.response.GetOr(EmptyBody);
    failedSymbols := [];
    if errorData.failedSymbols.Some? {
      failedSymbols := errorData.failedSymbols.value;
    } else if errorMessage != "" {
      failedSymbols := Extract(errorMessage, caseless);
    }
  }

  /** The second half: the message rules, tried in order. */
  method ChooseMessage(failedSymbols: seq<string>, errorMessage: string, symbols: seq<string>) returns (userMessage: string)
    ensures userMessage == MessageFor(failedSymbols, errorMessage, symbols)
  {
    userMessage := "Failed to compare portfolio.";
    if |failedSymbols| > 0 {
      userMessage := FailedListMessage(failedSymbols);
    } else if Contains(errorMessage, "Could not fetch data") {
      userMessage := CouldNotFetchMessage(symbols);
    } else if Contains(errorMessage, "404") || Contains(errorMessage, "not found") {
      userMessage := NotFoundMessage;
    } else if errorMessage != "" {
      userMessage := "Failed to compare portfolio: " + errorMessage;
    } else {
      userMessage := GenericMessage;
    }
  }

  /** A `failed_symbols` field, when present, decides the symbols: the error
      text is not searched, even when the field is an empty list. */
  lemma FailedFieldWins(e: CompareError, caseless: bool)
    requires e.response.Some? && e.response.value.failedSymbols.Some?
    ensures FailedSymbolsWith(e, caseless) == e.response.value.failedSymbols.value
  {
  }

  /** Without the field, the symbols named in the error text are non-empty
      runs of the group's letters: letters of either case as written,
      upper-case letters only with the corrected group. */
  lemma FailedFromTextAreGroupLetters(e: CompareError, caseless: bool)
    requires e.response.GetOr(EmptyBody).failedSymbols.None?
    ensures forall x :: x in FailedSymbolsWith(e, caseless) ==> x != "" && AllGroupLetters(x, caseless)
    ensures forall x :: x in FailedSymbolsWith(e, true) ==> x != "" && AllLetters(x)
    ensures forall x :: x in FailedSymbols(e) ==> x != "" && forall k :: 0 <= k < |x| ==> IsUpperLetter(x[k])
  {
    ExtractedAreGroupLetters(ErrorText(e), caseless);
    ExtractedAreGroupLetters(ErrorText(e), true);
    ExtractedAreGroupLetters(ErrorText(e), false);
  }

  // ---- The discrepancy, on one error text ----

  lemma SymbolWordAtStart(t: string)
    requires t == "symbol not found"
    ensures SymbolWordAt(t, 0)
  {
    assert t[..6] == "symbol";
  }

  /** A position whose character is not an `s` cannot start "symbol". */
  lemma NotSymbolAt(s: string, p: nat)
    requires p < |s| && UpperChar(s[p]) != 'S'
    ensures !SymbolWordAt(s, p)
  {
    if p + 6 <= |s| {
      assert Upper(s[p..p + 6])[0] == UpperChar(s[p]);
    }
  }

  lemma NoLaterMatch(t: string, caseless: bool)
    requires t == "symbol not found"
    ensures FirstMatch(t, 1, caseless) == None
  {
    forall q: nat | 1 <= q ensures !SymbolWordAt(t, q) {
      if q < |t| {
        NotSymbolAt(t, q);
      }
    }
    NoMatchFrom(t, 1, caseless);
  }

  /** As written, the `i` flag lets the group take the word "not". */
  lemma CaselessGroup(t: string)
    requires t == "symbol not found"
    ensures FirstMatch(t, 0, true) == Some((7, 10))
  {
    SymbolWordAtStart(t);
    assert SpacesEnd(t, 6) == 7 by {
      assert IsSpace(t[6]) && !IsSpace(t[7]);
      assert SpacesEnd(t, 7) == 7;
    }
    assert RestStart(t, 6, true) == Some(7);
    assert LettersEnd(t, 7, true) == 10 by {
      assert !GroupLetter(t[10], true);
      assert LettersEnd(t, 10, true) == 10;
    }
    assert RepEnd(t, 10, true) == 10;
  }

  /** With an upper-case group nothing after "symbol" can be captured. */
  lemma UpperGroupFails(t: string)
    requires t == "symbol not found"
    ensures FirstMatch(t, 0, false) == None
  {
    assert SpacesEnd(t, 6) == 7 by {
      assert IsSpace(t[6]) && !IsSpace(t[7]);
      assert SpacesEnd(t, 7) == 7;
    }
    assert !GroupLetter(t[7], false);
    assert RestStart(t, 6, false) == None;
    NoLaterMatch(t, false);
  }

  lemma NotFoundText(t: string)
    requires t == "symbol not found"
    ensures Contains(t, "not found") && !Contains(t, "Could not fetch data")
  {
    assert StartsWith(t[7..], "not found");
    ContainsFrom(t, 7, "not found");
    NotContainsLonger(t, "Could not fetch data");
  }

  lemma {:induction false} ContainsFrom(s: string, p: nat, sub: string)
    requires p <= |s| && StartsWith(s[p..], sub)
    ensures Contains(s, sub)
  {
    if p > 0 {
      assert s[1..][p - 1..] == s[p..];
      ContainsFrom(s[1..], p - 1, sub);
    } else {
      assert s[0..] == s;
    }
  }

  lemma {:induction false} NotContainsLonger(s: string, sub: string)
    requires |sub| > |s|
    ensures !Contains(s, sub)
  {
    if |s| > 0 {
      NotContainsLonger(s[1..], sub);
    }
  }

  /** The error text "symbol not found" makes the source report the word
      "not" as a failed symbol, so the user is told that data for "not"
      could not be fetched; with the upper-case group the not-found rule
      applies, as its place in the order intends. */
  lemma LowerCaseWordTakenForSymbol(t: string, symbols: seq<string>)
    requires t == "symbol not found"
    ensures ExtractedSymbolsAsWritten(t) == ["not"]
    ensures ExtractedSymbols(t) == []
    ensures var e := CompareError(Some(ErrorBody(Some(t), None, None)), None);
      FailureTextAsWritten(e, symbols) == FailedListMessage(["not"])
      && FailureText(e, symbols) == NotFoundMessage
  {
    AsWrittenTakesNot(t);
    UpperTakesNothing(t);
    NotFoundText(t);
    MessagesForText(t, symbols);
  }

  /** The two messages for a detail text that names "not" only under the
      `i` flag and contains "not found". */
  lemma MessagesForText(t: string, symbols: seq<string>)
    requires ExtractedSymbolsAsWritten(t) == ["not"] && ExtractedSymbols(t) == []
    requires Contains(t, "not found") && !Contains(t, "Could not fetch data")
    ensures var e := CompareError(Some(ErrorBody(Some(t), None, None)), None);
      FailureTextAsWritten(e, symbols) == FailedListMessage(["not"])
      && FailureText(e, symbols) == NotFoundMessage
  {
    var e := CompareError(Some(ErrorBody(Some(t), None, None)), None);
    assert t != "" by {
      if t == "" {
        NotContainsLonger(t, "not found");
      }
    }
    assert ErrorText(e) == t;
  }

  lemma AsWrittenTakesNot(t: string)
    requires t == "symbol not found"
    ensures ExtractedSymbolsAsWritten(t) == ["not"]
  {
    CaselessGroup(t);
    assert t[7..10] == "not";
    ExtractOnePart(t, true, 7, 10);
  }

  lemma UpperTakesNothing(t: string)
    requires t == "symbol not found"
    ensures ExtractedSymbols(t) == []
  {
    UpperGroupFails(t);
  }
}
