/** `normalizeName` of the Intersection Analyzer: the identity key used for a
    holding that has no ticker. Each stage below is one `.replace`/`.trim`
    of the source expression, applied in the same order. */
module Names {
  import opened Wrappers
  import opened Strings

  /** The alternatives of the suffix pattern, in the order the regular
      expression tries them. */
  const SuffixTokens: seq<string> :=
    ["INC", "CORP", "CORPORATION", "CO", "LTD", "LLC", "PLC", "AG", "SA", "NV", "AB",
     "CLASS A", "CLASS B", "CLASS C"]

  /** A character that can survive normalisation: an upper-case word
      character or a plain space. */
  predicate IsNormalChar(c: char) {
    (IsWordChar(c) && !IsLower(c)) || c == ' '
  }

  /** What every character looks like once case and white space are settled:
      no lower-case letter, and no white space other than a plain space. */
  predicate IsSettledChar(c: char) {
    !IsLower(c) && (IsSpace(c) ==> c == ' ')
  }

  /** `.replace(/\s+/g, ' ')`: every maximal run of white space becomes one space. */
  function CollapseSpaces(s: string): string
    decreases |s|
  {
    if s == [] then []
    else if IsSpace(s[0]) then [' '] + CollapseSpaces(TrimStart(s[1..]))
    else [s[0]] + CollapseSpaces(s[1..])
  }

  /** After collapsing, white space is left only as single plain spaces, a
      leading space remains exactly when the input starts with white space,
      and no lower-case letter is introduced. */
  lemma CollapseSpacesShape(s: string)
    ensures var r := CollapseSpaces(s);
      && (|s| > 0 ==> |r| > 0 && (r[0] == ' ' <==> IsSpace(s[0])))
      && (forall k :: 0 <= k < |r| ==> (IsSpace(r[k]) ==> r[k] == ' '))
      && (forall k :: 0 <= k < |r| - 1 ==> !(r[k] == ' ' && r[k + 1] == ' '))
      && ((forall j :: 0 <= j < |s| ==> !IsLower(s[j])) ==> (forall k :: 0 <= k < |r| ==> !IsLower(r[k])))
  {
    CollapseFirst(s);
    CollapsePlainSpaces(s);
    CollapseSingleSpaces(s);
    if forall j :: 0 <= j < |s| ==> !IsLower(s[j]) {
      CollapseNoLower(s);
    }
  }

  /** The first character survives collapsing, as a space exactly when it is white space. */
  lemma CollapseFirst(s: string)
    ensures |s| > 0 ==> |CollapseSpaces(s)| > 0 && (CollapseSpaces(s)[0] == ' ' <==> IsSpace(s[0]))
  {
  }

  /** The only white space left is the plain space. */
  lemma {:induction false} CollapsePlainSpaces(s: string)
    ensures forall k :: 0 <= k < |CollapseSpaces(s)| ==> (IsSpace(CollapseSpaces(s)[k]) ==> CollapseSpaces(s)[k] == ' ')
    decreases |s|
  {
    if s != [] {
      if IsSpace(s[0]) {
        CollapsePlainSpaces(TrimStart(s[1..]));
      } else {
        CollapsePlainSpaces(s[1..]);
      }
    }
  }

  /** No two spaces are adjacent. */
  lemma {:induction false} CollapseSingleSpaces(s: string)
    ensures forall k :: 0 <= k < |CollapseSpaces(s)| - 1 ==> !(CollapseSpaces(s)[k] == ' ' && CollapseSpaces(s)[k + 1] == ' ')
    decreases |s|
  {
    if s != [] {
      if IsSpace(s[0]) {
        var rest := TrimStart(s[1..]);
        CollapseSingleSpaces(rest);
        CollapseFirst(rest);
      } else {
        CollapseSingleSpaces(s[1..]);
      }
    }
  }

  /** Collapsing introduces no lower-case letter. */
  lemma {:induction false} CollapseNoLower(s: string)
    requires forall j :: 0 <= j < |s| ==> !IsLower(s[j])
    ensures forall k :: 0 <= k < |CollapseSpaces(s)| ==> !IsLower(CollapseSpaces(s)[k])
    decreases |s|
  {
    if s != [] {
      if IsSpace(s[0]) {
        var rest := TrimStart(s[1..]);
        assert forall j :: 0 <= j < |rest| ==> rest[j] == s[1..][|s[1..]| - |rest| + j];
        CollapseNoLower(rest);
      } else {
        CollapseNoLower(s[1..]);
      }
    }
  }

  /** `\b` at position `i`: a word character on exactly one side. */
  predicate IsBoundary(s: string, i: nat)
    requires i <= |s|
  {
    (i > 0 && IsWordChar(s[i - 1])) != (i < |s| && IsWordChar(s[i]))
  }

  /** Token `tok` matches (ignoring case) at `p` and is followed by `\b`. */
  predicate TokenMatchesAt(s: string, p: nat, tok: string) {
    p + |tok| <= |s| && Upper(s[p..p + |tok|]) == tok && IsBoundary(s, p + |tok|)
  }

  /** The end of the first alternative among `toks` that matches at `p`. */
  function TokenEnd(s: string, p: nat, toks: seq<string>): (r: Option<nat>)
    requires forall i :: 0 <= i < |toks| ==> toks[i] != ""
    ensures r.Some? ==> p < r.value <= |s|
  {
    if toks == [] then None
    else if TokenMatchesAt(s, p, toks[0]) then Some(p + |toks[0]|)
    else TokenEnd(s, p, toks[1..])
  }

  lemma {:induction false} NoTokenEnd(s: string, p: nat, toks: seq<string>)
    requires forall i :: 0 <= i < |toks| ==> toks[i] != "" && !TokenMatchesAt(s, p, toks[i])
    ensures TokenEnd(s, p, toks) == None
  {
    if toks != [] {
      NoTokenEnd(s, p, toks[1..]);
    }
  }

  /** No suffix token starts with a character outside "ICLPASN" (in either case). */
  lemma NoTokenAtChar(s: string, p: nat)
    requires p < |s| && UpperChar(s[p]) !in "ICLPASN"
    ensures SuffixMatchEnd(s, p) == None
  {
    forall i | 0 <= i < |SuffixTokens|
      ensures SuffixTokens[i] != "" && !TokenMatchesAt(s, p, SuffixTokens[i])
    {
      var tok := SuffixTokens[i];
      assert tok[0] in "ICLPASN";
    }
    NoTokenEnd(s, p, SuffixTokens);
  }

  /** Where a match of `\b(INC|...|CLASS C)\b\.?` that starts at `p` ends, if
      one does; the optional period is taken whenever it is there. */
  function SuffixMatchEnd(s: string, p: nat): (r: Option<nat>)
    requires p <= |s|
    ensures r.Some? ==> p < r.value <= |s|
  {
    if !IsBoundary(s, p) then None
    else match TokenEnd(s, p, SuffixTokens)
      case None => None
      case Some(e) =>
        Some(if e < |s| && s[e] == '.' then e + 1 else e)
  }

  /** `.replace(suffixPattern, '')` scanning from position `p`: a match is
      dropped and the scan resumes after it; otherwise one character is kept. */
  function RemoveSuffixesFrom(s: string, p: nat): string
    requires p <= |s|
    decreases |s| - p
  {
    if p == |s| then ""
    else match SuffixMatchEnd(s, p)
      case Some(e) => RemoveSuffixesFrom(s, e)
      case None => [s[p]] + RemoveSuffixesFrom(s, p + 1)
  }

  /** Suffix removal only drops characters, so settled text stays settled. */
  lemma {:induction false} RemoveSuffixesSettled(s: string, p: nat)
    requires p <= |s|
    requires forall j :: p <= j < |s| ==> IsSettledChar(s[j])
    ensures forall k :: 0 <= k < |RemoveSuffixesFrom(s, p)| ==> IsSettledChar(RemoveSuffixesFrom(s, p)[k])
    decreases |s| - p
  {
    if p < |s| {
      match SuffixMatchEnd(s, p)
      case Some(e) => RemoveSuffixesSettled(s, e);
      case None => RemoveSuffixesSettled(s, p + 1);
    }
  }

  /** `.replace(/[^\w\s]/g, '')`: keeps word characters and white space. */
  function StripPunctuation(s: string): string {
    if s == [] then []
    else (if IsWordChar(s[0]) || IsSpace(s[0]) then [s[0]] else []) + StripPunctuation(s[1..])
  }

  /** Only word characters and white space remain, and settled text stays settled. */
  lemma {:induction false} StripPunctuationChars(s: string)
    ensures forall k :: 0 <= k < |StripPunctuation(s)| ==>
      IsWordChar(StripPunctuation(s)[k]) || IsSpace(StripPunctuation(s)[k])
    ensures (forall j :: 0 <= j < |s| ==> IsSettledChar(s[j])) ==>
      (forall k :: 0 <= k < |StripPunctuation(s)| ==> IsSettledChar(StripPunctuation(s)[k]))
  {
    if s != [] {
      StripPunctuationChars(s[1..]);
    }
  }

  /** `normalizeName`: each stage is one `.replace` or `.trim` of the
      source expression, in the same order. The empty name stays empty, and
      the result never starts or ends with white space. */
  function NormalizeName(name: string): (r: string)
    ensures name == "" ==> r == ""
    ensures r == [] || (!IsSpace(r[0]) && !IsSpace(r[|r| - 1]))
  {
    if name == "" then ""
    else Trim(StripPunctuation(RemoveSuffixesFrom(CollapseSpaces(Upper(name)), 0)))
  }

  /** The result holds only upper-case word characters and plain spaces,
      and neither starts nor ends with a space. */
  lemma NormalizeNameChars(name: string)
    ensures forall k :: 0 <= k < |NormalizeName(name)| ==> IsNormalChar(NormalizeName(name)[k])
    ensures NormalizeName(name) == [] || (NormalizeName(name)[0] != ' ' && NormalizeName(name)[|NormalizeName(name)| - 1] != ' ')
  {
    if name != "" {
      var collapsed := CollapseSpaces(Upper(name));
      CollapsedSettled(Upper(name));
      var removed := RemoveSuffixesFrom(collapsed, 0);
      RemoveSuffixesSettled(collapsed, 0);
      var stripped := StripPunctuation(removed);
      StripPunctuationChars(removed);
      TrimmedNormal(stripped);
    }
  }

  /** Collapsing upper-cased text leaves it settled. */
  lemma CollapsedSettled(u: string)
    requires forall j :: 0 <= j < |u| ==> !IsLower(u[j])
    ensures forall k :: 0 <= k < |CollapseSpaces(u)| ==> IsSettledChar(CollapseSpaces(u)[k])
  {
    CollapsePlainSpaces(u);
    CollapseNoLower(u);
  }

  /** Trimming settled word characters and white space leaves normal characters only. */
  lemma TrimmedNormal(s: string)
    requires forall k :: 0 <= k < |s| ==> (IsWordChar(s[k]) || IsSpace(s[k])) && IsSettledChar(s[k])
    ensures forall k :: 0 <= k < |Trim(s)| ==> IsNormalChar(Trim(s)[k])
  {
    TrimmedChars(s);
  }

  /** Trimming keeps a contiguous run of the input's characters. */
  lemma {:induction false} TrimmedChars(s: string)
    ensures |s| - |TrimStart(s)| + |Trim(s)| <= |s|
    ensures forall k :: 0 <= k < |Trim(s)| ==> Trim(s)[k] == s[|s| - |TrimStart(s)| + k]
  {
    SliceOfSuffix(s, TrimStart(s), Trim(s));
  }

  /** A prefix of a suffix is a run of the original's characters. */
  lemma SliceOfSuffix(s: string, a: string, b: string)
    requires |a| <= |s| && a == s[|s| - |a|..] && |b| <= |a| && b == a[..|b|]
    ensures |s| - |a| + |b| <= |s|
    ensures forall k :: 0 <= k < |b| ==> b[k] == s[|s| - |a| + k]
  {
  }
}

/** Worked examples of `normalizeName`, evaluated stage by stage. */
module NameExamples {
  import opened Wrappers
  import opened Strings
  import opened Names

  lemma {:induction false} CollapseKeeps(s: string)
    requires forall k :: 0 <= k < |s| ==> (IsSpace(s[k]) ==> s[k] == ' ')
    requires forall k :: 0 <= k < |s| - 1 ==> !(IsSpace(s[k]) && IsSpace(s[k + 1]))
    ensures CollapseSpaces(s) == s
  {
    if s != [] {
      CollapseKeeps(s[1..]);
      if IsSpace(s[0]) {
        assert TrimStart(s[1..]) == s[1..];
      }
    }
  }

  lemma {:induction false} StripKeeps(s: string)
    requires forall k :: 0 <= k < |s| ==> IsWordChar(s[k]) || IsSpace(s[k])
    ensures StripPunctuation(s) == s
  {
    if s != [] {
      StripKeeps(s[1..]);
    }
  }

  /** Inside a word `\b` fails, so the character is kept. */
  lemma KeepInsideWord(s: string, p: nat)
    requires 0 < p < |s| && IsWordChar(s[p - 1]) && IsWordChar(s[p])
    ensures RemoveSuffixesFrom(s, p) == [s[p]] + RemoveSuffixesFrom(s, p + 1)
  {
    assert !IsBoundary(s, p);
  }

  /** No suffix token starts with "AP". */
  lemma NoSuffixAtAp(s: string, p: nat)
    requires p + 1 < |s| && s[p] == 'A' && s[p + 1] == 'P'
    ensures SuffixMatchEnd(s, p) == None
  {
    forall i | 0 <= i < |SuffixTokens|
      ensures SuffixTokens[i] != "" && !TokenMatchesAt(s, p, SuffixTokens[i])
    {
      var tok := SuffixTokens[i];
      assert |tok| >= 2 && (tok[0] != 'A' || tok[1] != 'P');
      if p + |tok| <= |s| {
        assert Upper(s[p..p + |tok|])[0] == 'A' && Upper(s[p..p + |tok|])[1] == 'P';
      }
    }
    NoTokenEnd(s, p, SuffixTokens);
  }

  /** Inside a run of word characters every character is kept. */
  lemma {:induction false} KeepInsideRun(s: string, p: nat, q: nat)
    requires 0 < p <= q <= |s|
    requires forall k :: p - 1 <= k < q ==> IsWordChar(s[k])
    ensures RemoveSuffixesFrom(s, p) == s[p..q] + RemoveSuffixesFrom(s, q)
    decreases q - p
  {
    if p < q {
      KeepInsideWord(s, p);
      KeepInsideRun(s, p + 1, q);
      assert s[p..q] == [s[p]] + s[p + 1..q];
    }
  }

  /** A character that starts no suffix is kept. */
  lemma KeepPlain(s: string, p: nat)
    requires p < |s| && UpperChar(s[p]) !in "ICLPASN"
    ensures RemoveSuffixesFrom(s, p) == [s[p]] + RemoveSuffixesFrom(s, p + 1)
  {
    NoTokenAtChar(s, p);
  }

  /** A space is never the start of a suffix. */
  lemma KeepSpace(s: string, p: nat)
    requires p < |s| && s[p] == ' '
    ensures RemoveSuffixesFrom(s, p) == [' '] + RemoveSuffixesFrom(s, p + 1)
  {
    KeepPlain(s, p);
  }

  /** A plain character followed by a space is kept along with the space. */
  lemma KeepWordSpace(s: string, p: nat)
    requires p + 1 < |s| && UpperChar(s[p]) !in "ICLPASN" && s[p + 1] == ' '
    ensures RemoveSuffixesFrom(s, p) == [s[p], ' '] + RemoveSuffixesFrom(s, p + 2)
  {
    KeepSpace(s, p + 1);
    KeepPlain(s, p);
  }

  /** A plain last character is kept. */
  lemma KeepLastPlain(s: string, p: nat)
    requires p + 1 == |s| && UpperChar(s[p]) !in "ICLPASN"
    ensures RemoveSuffixesFrom(s, p) == [s[p]]
  {
    KeepPlain(s, p);
    assert RemoveSuffixesFrom(s, p + 1) == [];
  }

  /** One step of space collapsing at a non-space. */
  lemma CollapseHead(x: string)
    requires x != [] && !IsSpace(x[0])
    ensures CollapseSpaces(x) == [x[0]] + CollapseSpaces(x[1..])
  {
  }

  /** A run of white space in front of a non-space becomes one space. */
  lemma CollapseRun(sp: string, w: string)
    requires |sp| >= 1 && forall k :: 0 <= k < |sp| ==> IsSpace(sp[k])
    requires w == [] || !IsSpace(w[0])
    ensures CollapseSpaces(sp + w) == [' '] + CollapseSpaces(w)
  {
    var x := sp + w;
    assert x[0] == sp[0] && x[1..] == sp[1..] + w;
    TrimStartSpaces(sp[1..], w);
  }

  /** Text of word characters and single inner spaces survives punctuation
      stripping and trimming. */
  lemma StripTrimKeeps(r: string)
    requires forall k :: 0 <= k < |r| ==> IsWordChar(r[k]) || r[k] == ' '
    requires r == [] || (r[0] != ' ' && r[|r| - 1] != ' ')
    ensures Trim(StripPunctuation(r)) == r
  {
    StripKeeps(r);
    WordEndsKept(r);
  }

  lemma WordEndsKept(r: string)
    requires forall k :: 0 <= k < |r| ==> IsWordChar(r[k]) || r[k] == ' '
    requires r == [] || (r[0] != ' ' && r[|r| - 1] != ' ')
    ensures Trim(r) == r
  {
    if r != [] {
      assert IsWordChar(r[0]) && IsWordChar(r[|r| - 1]);
    }
    TrimKeeps(r);
  }

  /** `normalizeName` of a non-empty name, given the result of each stage. */
  lemma NormalizeStages(name: string, c: string, r: string, t: string)
    requires name != "" && CollapseSpaces(Upper(name)) == c
    requires RemoveSuffixesFrom(c, 0) == r && Trim(StripPunctuation(r)) == t
    ensures NormalizeName(name) == t
  {
  }

  /** Upper-case text is left alone by `toUpperCase`. */
  lemma UpperKeeps(s: string)
    requires forall k :: 0 <= k < |s| ==> !IsLower(s[k])
    ensures Upper(s) == s
  {
  }

  // ---- "Apple Inc." and "APPLE INC" ----

  /** The four characters after a leading "A" of "APPLE" are kept. */
  lemma AppleTail(s: string)
    requires |s| >= 6 && s[0] == 'A' && s[1] == 'P' && s[2] == 'P' && s[3] == 'L' && s[4] == 'E'
    ensures RemoveSuffixesFrom(s, 1) == s[1..5] + RemoveSuffixesFrom(s, 5)
  {
    KeepInsideRun(s, 1, 5);
  }

  /** No suffix matches at a leading "AP", so the "A" is kept. */
  lemma AppleHead(s: string)
    requires |s| >= 6 && s[0] == 'A' && s[1] == 'P'
    ensures RemoveSuffixesFrom(s, 0) == [s[0]] + RemoveSuffixesFrom(s, 1)
  {
    NoSuffixAtAp(s, 0);
  }

  lemma AppleLetters(s: string)
    requires |s| >= 6 && s[0] == 'A' && s[1] == 'P' && s[2] == 'P' && s[3] == 'L' && s[4] == 'E'
    ensures [s[0]] + s[1..5] == "APPLE"
  {
  }

  /** "APPLE" at the start of a string survives suffix removal. */
  lemma KeepsApple(s: string, tail: string)
    requires |s| >= 6 && s[0] == 'A' && s[1] == 'P' && s[2] == 'P' && s[3] == 'L' && s[4] == 'E'
    requires RemoveSuffixesFrom(s, 5) == tail
    ensures RemoveSuffixesFrom(s, 0) == "APPLE" + tail
  {
    AppleTail(s);
    AppleHead(s);
    AppleLetters(s);
  }

  /** "APPLE INC" with an optional final period, spelled out. */
  predicate IsAppleInc(u: string) {
    && |u| >= 9 && u[0] == 'A' && u[1] == 'P' && u[2] == 'P' && u[3] == 'L' && u[4] == 'E'
    && u[5] == ' ' && u[6] == 'I' && u[7] == 'N' && u[8] == 'C'
    && (|u| == 9 || (|u| == 10 && u[9] == '.'))
  }

  /** The final "INC", with its period, is dropped. */
  lemma IncAtEnd(s: string)
    requires IsAppleInc(s)
    ensures RemoveSuffixesFrom(s, 6) == ""
  {
    assert s[6..9] == ['I', 'N', 'C'];
    assert IsBoundary(s, 6) && TokenMatchesAt(s, 6, "INC") && SuffixTokens[0] == "INC";
    assert SuffixMatchEnd(s, 6) == Some(|s|);
  }

  lemma RemoveApple(s: string)
    requires IsAppleInc(s)
    ensures RemoveSuffixesFrom(s, 0) == "APPLE" + [' ']
  {
    IncAtEnd(s);
    KeepSpace(s, 5);
    KeepsApple(s, [' ']);
  }

  lemma AppleSettled(u: string)
    requires IsAppleInc(u)
    ensures CollapseSpaces(u) == u
  {
    CollapseKeeps(u);
  }

  lemma AppleStripped(s: string)
    requires s == "APPLE" + [' ']
    ensures StripPunctuation(s) == s
  {
    StripKeeps(s);
  }

  lemma AppleTrimmed(s: string)
    requires s == "APPLE" + [' ']
    ensures Trim(s) == "APPLE"
  {
    TrimStartSpaces("", s);
    TrimEndSpaces("APPLE", [' ']);
  }

  /** A name that upper-cases to "APPLE INC" or "APPLE INC." normalises to "APPLE". */
  lemma NormalizeApple(name: string)
    requires name != "" && IsAppleInc(Upper(name))
    ensures NormalizeName(name) == "APPLE"
  {
    var u := Upper(name);
    var r := "APPLE" + [' '];
    AppleSettled(u);
    RemoveApple(u);
    AppleStripped(r);
    AppleTrimmed(r);
    NormalizeStages(name, u, r, "APPLE");
  }

  /** Suffix and punctuation differences vanish: both spellings give "APPLE";
      an empty name gives the empty key. */
  lemma NormalizeNameExamples()
    ensures NormalizeName("Apple Inc.") == "APPLE"
    ensures NormalizeName("APPLE INC") == "APPLE"
    ensures NormalizeName("") == ""
  {
    NormalizeApple("Apple Inc.");
    NormalizeApple("APPLE INC");
  }

  // ---- "X INC Y" ----

  /** "X INC Y", spelled out. */
  predicate IsInner(s: string) {
    && |s| == 7 && s[0] == 'X' && s[1] == ' ' && s[2] == 'I' && s[3] == 'N' && s[4] == 'C'
    && s[5] == ' ' && s[6] == 'Y'
  }

  /** "X  Y", spelled out. */
  predicate IsDouble(s: string) {
    |s| == 4 && s[0] == 'X' && s[1] == ' ' && s[2] == ' ' && s[3] == 'Y'
  }

  /** "X Y", spelled out. */
  predicate IsSingle(s: string) {
    |s| == 3 && s[0] == 'X' && s[1] == ' ' && s[2] == 'Y'
  }

  /** "INC" between two spaces is dropped. */
  lemma IncInMiddle(s: string)
    requires IsInner(s)
    ensures RemoveSuffixesFrom(s, 2) == RemoveSuffixesFrom(s, 5)
  {
    assert s[2..5] == ['I', 'N', 'C'];
    assert IsBoundary(s, 2) && TokenMatchesAt(s, 2, "INC") && SuffixTokens[0] == "INC";
    assert SuffixMatchEnd(s, 2) == Some(5);
  }

  lemma InnerTail(s: string)
    requires IsInner(s)
    ensures RemoveSuffixesFrom(s, 5) == [' ', 'Y']
  {
    assert RemoveSuffixesFrom(s, 7) == [];
    KeepPlain(s, 6);
    KeepSpace(s, 5);
  }

  lemma RemoveInner(s: string)
    requires IsInner(s)
    ensures IsDouble(RemoveSuffixesFrom(s, 0))
  {
    InnerFront(s);
    IncInMiddle(s);
    InnerTail(s);
  }

  lemma InnerFront(s: string)
    requires IsInner(s)
    ensures RemoveSuffixesFrom(s, 0) == [s[0], ' '] + RemoveSuffixesFrom(s, 2)
  {
    KeepWordSpace(s, 0);
  }

  lemma RemoveNone(t: string)
    requires IsSingle(t)
    ensures RemoveSuffixesFrom(t, 0) == t
  {
    KeepWordSpace(t, 0);
    KeepLastPlain(t, 2);
  }

  lemma CollapseDouble(s: string)
    requires IsDouble(s)
    ensures IsSingle(CollapseSpaces(s))
  {
    var y := s[3..];
    CollapseRunOf(s[1..], 2);
    CollapseOne(y);
    CollapseHead(s);
  }

  /** A single non-space character collapses to itself. */
  lemma CollapseOne(y: string)
    requires |y| == 1 && !IsSpace(y[0])
    ensures CollapseSpaces(y) == y
  {
    assert y[1..] == [];
  }

  /** A leading run of `n` white-space characters collapses to one space. */
  lemma CollapseRunOf(x: string, n: nat)
    requires 1 <= n <= |x| && (forall k :: 0 <= k < n ==> IsSpace(x[k])) && (n == |x| || !IsSpace(x[n]))
    ensures CollapseSpaces(x) == [' '] + CollapseSpaces(x[n..])
  {
    assert x == x[..n] + x[n..];
    CollapseRun(x[..n], x[n..]);
  }

  lemma InnerSettled(s: string)
    requires IsInner(s)
    ensures CollapseSpaces(Upper(s)) == s
  {
    UpperKeeps(s);
    CollapseKeeps(s);
  }

  lemma DoubleSettled(s: string)
    requires IsDouble(s)
    ensures IsSingle(CollapseSpaces(Upper(s)))
  {
    UpperKeeps(s);
    CollapseDouble(s);
  }

  lemma DoubleKept(r: string)
    requires IsDouble(r)
    ensures Trim(StripPunctuation(r)) == r
  {
    StripTrimKeeps(r);
  }

  lemma SingleKept(r: string)
    requires IsSingle(r)
    ensures Trim(StripPunctuation(r)) == r
  {
    StripTrimKeeps(r);
  }

  lemma NormalizeInner(s: string)
    requires IsInner(s)
    ensures IsDouble(NormalizeName(s))
  {
    InnerSettled(s);
    RemoveInner(s);
    var r := RemoveSuffixesFrom(s, 0);
    DoubleKept(r);
    NormalizeStages(s, s, r, r);
  }

  lemma NormalizeDouble(s: string)
    requires IsDouble(s)
    ensures IsSingle(NormalizeName(s))
  {
    DoubleSettled(s);
    var c := CollapseSpaces(Upper(s));
    RemoveNone(c);
    SingleKept(c);
    NormalizeStages(s, c, c, c);
  }

  /** `normalizeName` is not idempotent: suffix removal runs after white space
      is collapsed, so removing a middle suffix leaves two spaces, which a
      second pass collapses. */
  lemma NormalizeNameNotIdempotent(s: string)
    requires IsInner(s)
    ensures NormalizeName(s) == "X  Y"
    ensures NormalizeName(NormalizeName(s)) != NormalizeName(s)
  {
    NormalizeInner(s);
    DoubleSpelled(NormalizeName(s));
    NormalizeDouble(NormalizeName(s));
  }

  lemma DoubleSpelled(d: string)
    requires IsDouble(d)
    ensures d == "X  Y"
  {
  }

  /** `IsInner` spells out exactly the name "X INC Y". */
  lemma InnerSpelled(s: string)
    ensures IsInner(s) <==> s == "X INC Y"
  {
  }
}
