/** Normalised fact lists, and the replay directives compiled from blocking corrections. */
module Directives {
  import opened CorrectionPayload
  import opened Results
  import opened Selections

  function LowerChar(c: char): char {
    if 'A' <= c <= 'Z' then c - 'A' + 'a' else c
  }

  function LowerAscii(text: string): (r: string)
    ensures |r| == |text| && forall i :: 0 <= i < |text| ==> r[i] == LowerChar(text[i])
  {
    if text == "" then "" else LowerAscii(text[..|text| - 1]) + [LowerChar(text[|text| - 1])]
  }

  /** The lower-case form of a letter is 32 places after it. */
  predicate LowerOf(c: char, d: char) {
    'A' <= c <= 'Z' && d as int == c as int + 32
  }

  /** The same character, or the same letter in another case. */
  predicate SameLetter(c: char, d: char) {
    c == d || LowerOf(c, d) || LowerOf(d, c)
  }

  lemma LowerIs(c: char)
    ensures if 'A' <= c <= 'Z' then LowerOf(c, LowerChar(c)) && 'a' <= LowerChar(c) <= 'z' else LowerChar(c) == c
  {
  }

  /** Lowered texts are equal exactly if the texts are but for the case of their letters; and a lowered text
      is the text but for that, without capital letters. */
  lemma {:induction false} LoweredIff(a: string, b: string)
    ensures LowerAscii(a) == LowerAscii(b) <==> |a| == |b| && forall i :: 0 <= i < |a| ==> SameLetter(a[i], b[i])
    ensures forall i :: 0 <= i < |a| ==> SameLetter(a[i], LowerAscii(a)[i]) && !('A' <= LowerAscii(a)[i] <= 'Z')
  {
    hide SameLetter, LowerChar;
    forall i | 0 <= i < |a| ensures SameLetter(a[i], LowerChar(a[i])) && !('A' <= LowerAscii(a)[i] <= 'Z') {
      LowerIs(a[i]);
      assert SameLetter(a[i], LowerChar(a[i])) by { OtherCase(a[i], LowerChar(a[i])); }
    }
    if |a| == |b| {
      forall i | 0 <= i < |a| ensures LowerChar(a[i]) == LowerChar(b[i]) <==> SameLetter(a[i], b[i]) {
        SameLetterIff(a[i], b[i]);
      }
      assert LowerAscii(a) == LowerAscii(b) <==> forall i :: 0 <= i < |a| ==> LowerAscii(a)[i] == LowerAscii(b)[i];
    }
  }

  lemma OtherCase(c: char, d: char)
    requires c == d || LowerOf(c, d)
    ensures SameLetter(c, d)
  {
  }

  lemma SameLetterIff(c: char, d: char)
    ensures LowerChar(c) == LowerChar(d) <==> SameLetter(c, d)
  {
    hide LowerChar;
    LowerIs(c);
    LowerIs(d);
  }

  predicate IsSpace(c: char) {
    c == ' ' || '\t' <= c <= '\r'
  }

  const SPACES := " \t\n\U{000b}\U{000c}\r"

  lemma SpaceIff(c: char)
    ensures IsSpace(c) <==> c in SPACES
  {
    assert SPACES == [' ', '\t', '\n', '\U{000b}', '\U{000c}', '\r'];
  }

  /** `absl::StripAsciiWhitespace`. */
  function Strip(text: string): (r: string)
    ensures r != "" ==> !IsSpace(r[0]) && !IsSpace(r[|r| - 1])
    ensures |r| <= |text|
    decreases |text|
  {
    if text == "" then ""
    else if IsSpace(text[0]) then Strip(text[1..])
    else if IsSpace(text[|text| - 1]) then Strip(text[..|text| - 1])
    else text
  }

  /** Outside `i` to `j` the text is blank. */
  ghost predicate BlankAround(text: string, i: nat, j: nat) {
    i <= j <= |text| && forall k :: 0 <= k < i || j <= k < |text| ==> text[k] in SPACES
  }

  /** Stripping takes off the blanks, tabs, line and page breaks around a text, and nothing else. */
  lemma {:induction false} StripIs(text: string) returns (i: nat, j: nat)
    ensures BlankAround(text, i, j) && Strip(text) == text[i..j]
    ensures i < j ==> text[i] !in SPACES && text[j - 1] !in SPACES
    decreases |text|
  {
    hide IsSpace, BlankAround;
    if text == "" {
      i, j := 0, 0;
      assert BlankAround(text, i, j) by { NothingAround(text); }
    } else {
      SpaceIff(text[0]);
      SpaceIff(text[|text| - 1]);
      if IsSpace(text[0]) {
        i, j := StripIs(text[1..]);
        SpaceBefore(text, i, j);
        i, j := i + 1, j + 1;
      } else if IsSpace(text[|text| - 1]) {
        i, j := StripIs(text[..|text| - 1]);
        SpaceAfter(text, i, j);
      } else {
        i, j := 0, |text|;
        NothingAround(text);
      }
    }
  }

  lemma NothingAround(text: string)
    ensures BlankAround(text, 0, |text|)
  {
  }

  lemma SpaceBefore(text: string, i: nat, j: nat)
    requires text != "" && text[0] in SPACES && BlankAround(text[1..], i, j)
    ensures BlankAround(text, i + 1, j + 1) && text[1..][i..j] == text[i + 1..j + 1]
  {
    forall k | 1 <= k < |text| ensures text[1..][k - 1] == text[k] {}
  }

  lemma SpaceAfter(text: string, i: nat, j: nat)
    requires text != "" && text[|text| - 1] in SPACES && BlankAround(text[..|text| - 1], i, j)
    ensures BlankAround(text, i, j) && text[..|text| - 1][i..j] == text[i..j]
  {
    forall k | 0 <= k < |text| - 1 ensures text[..|text| - 1][k] == text[k] {}
  }

  predicate Blank(text: string) {
    forall i :: 0 <= i < |text| ==> IsSpace(text[i])
  }

  lemma {:induction false} StripEmptyIffBlank(text: string)
    ensures Strip(text) == "" <==> Blank(text)
    decreases |text|
  {
    if text != "" {
      if IsSpace(text[0]) {
        StripEmptyIffBlank(text[1..]);
        if Blank(text[1..]) {
          forall i | 0 <= i < |text| ensures IsSpace(text[i]) { assert i > 0 ==> text[i] == text[1..][i - 1]; }
        }
        if Blank(text) { assert Blank(text[1..]); }
      } else if IsSpace(text[|text| - 1]) {
        StripEmptyIffBlank(text[..|text| - 1]);
        assert text[..|text| - 1][0] == text[0];
      }
    }
  }

  // ---- fact lists --------------------------------------------------------------------------------

  function Keys(facts: seq<string>): (r: seq<string>)
    ensures |r| == |facts| && forall i :: 0 <= i < |facts| ==> r[i] == LowerAscii(facts[i])
  {
    if facts == [] then [] else Keys(facts[..|facts| - 1]) + [LowerAscii(facts[|facts| - 1])]
  }

  /** The facts stripped, without blank ones and without those that differ from an earlier one only
      in case. */
  function Normalized(facts: seq<string>): seq<string> {
    if facts == [] then []
    else
      var before, fact := Normalized(facts[..|facts| - 1]), Strip(facts[|facts| - 1]);
      if fact == "" || LowerAscii(fact) in Keys(before) then before else before + [fact]
  }

  method NormalizeFactList(facts: seq<string>) returns (out: seq<string>)
    ensures out == Normalized(facts)
  {
    out := [];
    var seenKeys: seq<string> := [];
    var k := 0;
    while k < |facts|
      invariant 0 <= k <= |facts| && out == Normalized(facts[..k]) && seenKeys == Keys(out)
    {
      assert facts[..k + 1][..k] == facts[..k];
      var trimmed := Strip(facts[k]);
      if trimmed != "" {
        var key := LowerAscii(trimmed);
        if key !in seenKeys {
          seenKeys := seenKeys + [key];
          out := out + [trimmed];
          assert out[..|out| - 1] == Normalized(facts[..k]);
        }
      }
      k := k + 1;
    }
    assert facts[..k] == facts;
  }

  /** A normalised list: stripped facts, none blank, no two alike but for case. */
  predicate IsNormalized(facts: seq<string>) {
    && (forall i :: 0 <= i < |facts| ==> facts[i] != "" && Strip(facts[i]) == facts[i])
    && (forall i, j :: 0 <= i < j < |facts| ==> LowerAscii(facts[i]) != LowerAscii(facts[j]))
  }

  lemma {:induction false} StripTwice(text: string)
    ensures Strip(Strip(text)) == Strip(text)
    decreases |text|
  {
    if text != "" {
      if IsSpace(text[0]) { StripTwice(text[1..]); }
      else if IsSpace(text[|text| - 1]) { StripTwice(text[..|text| - 1]); }
    }
  }

  lemma {:induction false} NormalizedIsNormalized(facts: seq<string>)
    ensures IsNormalized(Normalized(facts))
  {
    hide Strip, LowerAscii, Keys, IsNormalized;
    if facts == [] {
      EmptyIsNormalized();
    } else {
      var n := |facts| - 1;
      NormalizedIsNormalized(facts[..n]);
      StripTwice(facts[n]);
      if Normalized(facts) != Normalized(facts[..n]) {
        AppendNormalized(Normalized(facts[..n]), Strip(facts[n]));
      }
    }
  }

  lemma EmptyIsNormalized()
    ensures IsNormalized([])
  {
  }

  lemma AppendNormalized(facts: seq<string>, fact: string)
    requires IsNormalized(facts) && fact != "" && Strip(fact) == fact && LowerAscii(fact) !in Keys(facts)
    ensures IsNormalized(facts + [fact])
  {
    hide Strip, LowerAscii;
    assert forall i :: 0 <= i < |facts| ==> Keys(facts)[i] == LowerAscii(facts[i]);
  }

  /** Normalising loses no fact but for case and outer space. */
  lemma {:induction false} NormalizedKeeps(facts: seq<string>, i: nat)
    requires i < |facts| && Strip(facts[i]) != ""
    ensures LowerAscii(Strip(facts[i])) in Keys(Normalized(facts))
  {
    hide Strip, LowerAscii, Keys;
    var n := |facts| - 1;
    if i < n {
      NormalizedKeeps(facts[..n], i);
    }
    KeysAppended(Normalized(facts[..n]), Strip(facts[n]), LowerAscii(Strip(facts[i])));
  }

  lemma KeysAppended(facts: seq<string>, fact: string, key: string)
    ensures key in Keys(facts + [fact]) <==> key in Keys(facts) || key == LowerAscii(fact)
  {
    hide LowerAscii;
    assert (facts + [fact])[..|facts|] == facts;
  }

  /** And it makes none up. */
  lemma {:induction false} NormalizedFrom(facts: seq<string>, fact: string) returns (i: nat)
    requires fact in Normalized(facts)
    ensures i < |facts| && fact == Strip(facts[i])
  {
    hide Strip, LowerAscii, Keys;
    var n := |facts| - 1;
    if fact in Normalized(facts[..n]) { i := NormalizedFrom(facts[..n], fact); } else { i := n; }
  }

  /** A list is normalised exactly when normalising leaves it alone. */
  lemma {:induction false} NormalizedIsFixed(facts: seq<string>)
    ensures IsNormalized(facts) <==> Normalized(facts) == facts
  {
    hide Strip, LowerAscii;
    NormalizedIsNormalized(facts);
    if facts != [] && IsNormalized(facts) {
      var n := |facts| - 1;
      NormalizedIsFixed(facts[..n]);
      assert facts == facts[..n] + [facts[n]];
      assert forall i :: 0 <= i < n ==> Keys(facts[..n])[i] == LowerAscii(facts[i]);
    }
  }

  /** Of each fact that is not blank the first spelling is kept, stripped, in the order of the list. */
  lemma {:induction false} NormalizedPlaces(facts: seq<string>) returns (at: seq<nat>)
    ensures Places(at, |facts|) && |Normalized(facts)| == |at|
    ensures forall i :: 0 <= i < |at| ==> Normalized(facts)[i] == Strip(facts[at[i]])
    ensures forall k :: k in at <==> 0 <= k < |facts| && FirstSpelling(facts, k)
  {
    hide Strip, LowerAscii, Keys, FirstSpelling;
    if facts == [] {
      at := [];
    } else {
      var n := |facts| - 1;
      at := NormalizedPlaces(facts[..n]);
      NextPlace(at, n);
      forall k | 0 <= k < n ensures FirstSpelling(facts[..n], k) <==> FirstSpelling(facts, k) {
        SameSpelling(facts, k);
      }
      KeptIff(facts);
      if FirstSpelling(facts, n) { at := at + [n]; }
    }
  }

  /** Not blank, and no earlier fact is the same but for case and outer space. */
  predicate FirstSpelling(facts: seq<string>, k: nat)
    requires k < |facts|
  {
    Strip(facts[k]) != "" && forall j :: 0 <= j < k ==> LowerAscii(Strip(facts[j])) != LowerAscii(Strip(facts[k]))
  }

  lemma SameSpelling(facts: seq<string>, k: nat)
    requires facts != [] && k < |facts| - 1
    ensures FirstSpelling(facts[..|facts| - 1], k) <==> FirstSpelling(facts, k)
  {
    hide Strip, LowerAscii;
    assert forall j :: 0 <= j <= k ==> facts[..|facts| - 1][j] == facts[j];
  }

  lemma {:induction false} KeptIff(facts: seq<string>)
    requires facts != []
    ensures var n := |facts| - 1;
            Normalized(facts) == Normalized(facts[..n]) + (if FirstSpelling(facts, n) then [Strip(facts[n])] else [])
  {
    hide Strip, LowerAscii;
    var n := |facts| - 1;
    var before, fact := facts[..n], Strip(facts[n]);
    if fact != "" {
      if LowerAscii(fact) in Keys(Normalized(before)) {
        var i :| 0 <= i < |Keys(Normalized(before))| && Keys(Normalized(before))[i] == LowerAscii(fact);
        var j := NormalizedFrom(before, Normalized(before)[i]);
        assert facts[j] == before[j];
      } else {
        forall j | 0 <= j < n ensures LowerAscii(Strip(facts[j])) != LowerAscii(fact) {
          if LowerAscii(Strip(facts[j])) == LowerAscii(fact) { NormalizedKeeps(before, j); }
        }
      }
    }
  }

  // ---- directives ----------------------------------------------------------------------------------

  datatype Directive = Directive(correctionId: string, correctionIndex: nat, text: string,
                                 invalidatedFacts: seq<string>, replacementFacts: seq<string>, scope: Scope)

  function ReplacementFactsFor(p: Payload): seq<string> {
    var facts := Normalized(p.replacementFacts);
    if facts != [] || p.replacementProjection == "" then facts else Normalized([p.replacementProjection])
  }

  function DirectiveOf(p: Payload): Directive {
    Directive(p.correctionId, if p.rangeEnd > 0 then p.rangeEnd - 1 else p.rangeStart,
              if p.correctionText == "" then p.reasonCode else p.correctionText,
              Normalized(p.invalidatedFacts), ReplacementFactsFor(p), p.scope)
  }

  /** Nothing a replay could act on, in a correction that has to interrupt. */
  predicate NotActionable(p: Payload) {
    p.mustInterrupt && Normalized(p.invalidatedFacts) == [] && ReplacementFactsFor(p) == []
  }

  /** `CompileProjectionCorrectionDirectives`. */
  function Compile(corrections: seq<Payload>): Result<seq<Directive>, Code> {
    if corrections == [] then Ok([])
    else
      var n := |corrections| - 1;
      var before :- Compile(corrections[..n]);
      if corrections[n].severity != Blocking then Ok(before)
      else if NotActionable(corrections[n]) then Err(FailedPrecondition)
      else Ok(before + [DirectiveOf(corrections[n])])
  }

  method CompileProjectionCorrectionDirectives(corrections: seq<Payload>) returns (r: Result<seq<Directive>, Code>)
    ensures r == Compile(corrections)
  {
    hide Normalized, Strip, LowerAscii, Keys;
    var directives: seq<Directive> := [];
    var k := 0;
    while k < |corrections|
      invariant 0 <= k <= |corrections| && Compile(corrections[..k]) == Ok(directives)
    {
      assert corrections[..k + 1][..k] == corrections[..k];
      var p := corrections[k];
      if p.severity == Blocking {
        var invalidatedFacts := NormalizeFactList(p.invalidatedFacts);
        var replacementFacts := NormalizeFactList(p.replacementFacts);
        if replacementFacts == [] && p.replacementProjection != "" {
          replacementFacts := NormalizeFactList([p.replacementProjection]);
        }
        if p.mustInterrupt && invalidatedFacts == [] && replacementFacts == [] {
          CompileFails(corrections, k);
          return Err(FailedPrecondition);
        }
        directives := directives +
          [Directive(p.correctionId, if p.rangeEnd > 0 then p.rangeEnd - 1 else p.rangeStart,
                     if p.correctionText == "" then p.reasonCode else p.correctionText,
                     invalidatedFacts, replacementFacts, p.scope)];
      }
      k := k + 1;
    }
    assert corrections[..k] == corrections;
    return Ok(directives);
  }

  lemma {:induction false} CompileFails(corrections: seq<Payload>, k: nat)
    requires k < |corrections| && corrections[k].severity == Blocking && NotActionable(corrections[k])
    ensures Compile(corrections) == Err(FailedPrecondition)
  {
    hide NotActionable;
    var n := |corrections| - 1;
    if k < n {
      assert corrections[..n][k] == corrections[k];
      CompileFails(corrections[..n], k);
    } else {
      CompileErr(corrections[..n]);
    }
  }

  lemma {:induction false} CompileErr(corrections: seq<Payload>)
    ensures Compile(corrections).Err? ==> Compile(corrections) == Err(FailedPrecondition)
  {
    if corrections != [] { CompileErr(corrections[..|corrections| - 1]); }
  }

  /** Every fact, replacement and replacement text of the correction is blank. */
  predicate SaysNothing(p: Payload) {
    && (forall i :: 0 <= i < |p.invalidatedFacts| ==> Blank(p.invalidatedFacts[i]))
    && (forall i :: 0 <= i < |p.replacementFacts| ==> Blank(p.replacementFacts[i]))
    && Blank(p.replacementProjection)
  }

  lemma {:induction false} NormalizedEmptyIff(facts: seq<string>)
    ensures Normalized(facts) == [] <==> forall i :: 0 <= i < |facts| ==> Blank(facts[i])
  {
    hide Strip, Blank, LowerAscii;
    if facts != [] {
      var n := |facts| - 1;
      NormalizedEmptyIff(facts[..n]);
      StripEmptyIffBlank(facts[n]);
      if Normalized(facts) == [] {
        forall i | 0 <= i < |facts| ensures Blank(facts[i]) { assert i < n ==> facts[i] == facts[..n][i]; }
      }
    }
  }

  lemma NotActionableIff(p: Payload)
    ensures NotActionable(p) <==> p.mustInterrupt && SaysNothing(p)
  {
    hide Normalized, Blank;
    NormalizedEmptyIff(p.invalidatedFacts);
    NormalizedEmptyIff(p.replacementFacts);
    NormalizedEmptyIff([p.replacementProjection]);
    assert [p.replacementProjection][0] == p.replacementProjection;
    assert p.replacementProjection == "" ==> Blank(p.replacementProjection) by {
      StripEmptyIffBlank(p.replacementProjection);
    }
  }

  /** Compiling fails exactly when some blocking correction that has to interrupt says nothing to
      act on; otherwise each blocking correction has its directive, in order. */
  lemma {:induction false} CompileIff(corrections: seq<Payload>)
    ensures Compile(corrections).Err? <==>
            exists k :: 0 <= k < |corrections| && corrections[k].severity == Blocking && corrections[k].mustInterrupt
                && SaysNothing(corrections[k])
    ensures Compile(corrections).Ok? ==> forall d :: d in Compile(corrections).value <==>
            exists k :: 0 <= k < |corrections| && corrections[k].severity == Blocking
                && d == DirectiveOf(corrections[k])
  {
    hide SaysNothing, NotActionable, DirectiveOf;
    if corrections != [] {
      var n := |corrections| - 1;
      CompileIff(corrections[..n]);
      NotActionableIff(corrections[n]);
      assert corrections == corrections[..n] + [corrections[n]];
    }
  }

  /** The directive of a correction: it takes effect after the last event of the correction's range, its text
      is the correction's or the reason's code, its replacements are the facts given or else the projection. */
  predicate Directs(d: Directive, p: Payload) {
    && d.correctionId == p.correctionId && d.scope == p.scope
    && d.correctionIndex == (if p.rangeEnd == 0 then p.rangeStart else p.rangeEnd - 1)
    && d.text == (if p.correctionText != "" then p.correctionText else p.reasonCode)
    && d.invalidatedFacts == Normalized(p.invalidatedFacts)
    && d.replacementFacts ==
       if exists k :: 0 <= k < |p.replacementFacts| && !Blank(p.replacementFacts[k]) then Normalized(p.replacementFacts)
       else if !Blank(p.replacementProjection) then [Strip(p.replacementProjection)] else []
  }

  lemma {:induction false} DirectiveDirects(p: Payload)
    ensures Directs(DirectiveOf(p), p)
  {
    hide Normalized, Blank, Strip;
    NormalizedEmptyIff(p.replacementFacts);
    OneNormalized(p.replacementProjection);
    if p.replacementProjection == "" { StripEmptyIffBlank(""); NothingStripped(); }
  }

  lemma NothingStripped()
    ensures Strip("") == ""
  {
  }

  lemma OneNormalized(fact: string)
    ensures Normalized([fact]) == if Blank(fact) then [] else [Strip(fact)]
  {
    hide Blank, Strip, LowerAscii;
    StripEmptyIffBlank(fact);
    assert [fact][..0] == [];
  }

  /** Compiling gives the directives of the blocking corrections, in their order and as often. */
  lemma {:induction false} CompiledAre(corrections: seq<Payload>) returns (at: seq<nat>)
    requires Compile(corrections).Ok?
    ensures var directives := Compile(corrections).value;
            && Places(at, |corrections|) && |directives| == |at|
            && (forall i :: 0 <= i < |at| ==> Directs(directives[i], corrections[at[i]]))
            && forall k :: k in at <==> 0 <= k < |corrections| && corrections[k].severity == Blocking
  {
    hide Directs, DirectiveOf, NotActionable;
    if corrections == [] {
      at := [];
    } else {
      var n := |corrections| - 1;
      at := CompiledAre(corrections[..n]);
      NextPlace(at, n);
      DirectiveDirects(corrections[n]);
      assert forall k :: 0 <= k < n ==> corrections[..n][k] == corrections[k];
      if corrections[n].severity == Blocking { at := at + [n]; }
    }
  }
}
