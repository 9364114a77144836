/**
 * The contract compatibility classifier of packages/analyzers/src/contract-compatibility.ts: parameter
 * splitting character by character, and the classification measured against the calls it protects.
 */
module Contracts {
  import opened Options
  import opened Texts

  // ---- Splitting a parameter list ----

  /** Opened minus closed brackets of one kind. */
  function Level(s: string, open: char, close: char): int {
    if s == "" then 0
    else
      var last := s[|s| - 1];
      Level(s[..|s| - 1], open, close) + if last == open then 1 else if last == close then -1 else 0
  }

  /** Outside every angle, square and curly bracket. */
  predicate AtTop(s: string) {
    Level(s, '<', '>') == 0 && Level(s, '[', ']') == 0 && Level(s, '{', '}') == 0
  }

  predicate NoneClosedEarly(s: string) {
    Level(s, '<', '>') >= 0 && Level(s, '[', ']') >= 0 && Level(s, '{', '}') >= 0
  }

  ghost predicate Opening(s: string) {
    forall k :: 0 <= k <= |s| ==> NoneClosedEarly(s[..k])
  }

  ghost predicate Balanced(s: string) {
    Opening(s) && AtTop(s)
  }

  ghost predicate NoTopComma(s: string) {
    forall k :: 0 <= k < |s| && s[k] == ',' ==> !AtTop(s[..k])
  }

  ghost predicate IsPiece(s: string) {
    Balanced(s) && NoTopComma(s)
  }

  function Join(pieces: seq<string>): string
    requires pieces != []
  {
    if |pieces| == 1 then pieces[0] else Join(pieces[..|pieces| - 1]) + "," + pieces[|pieces| - 1]
  }

  function TrimStart(s: string): string {
    if s != "" && IsSpace(s[0]) then TrimStart(s[1..]) else s
  }

  function TrimEnd(s: string): string {
    if s != "" && IsSpace(s[|s| - 1]) then TrimEnd(s[..|s| - 1]) else s
  }

  function Trim(s: string): string {
    TrimEnd(TrimStart(s))
  }

  lemma {:induction false} LevelOfConcat(s: string, t: string, open: char, close: char)
    ensures Level(s + t, open, close) == Level(s, open, close) + Level(t, open, close)
  {
    if t == "" {
      assert s + t == s;
    } else {
      LevelOfConcat(s, t[..|t| - 1], open, close);
      assert (s + t)[..|s + t| - 1] == s + t[..|t| - 1];
    }
  }

  /** After a top-level prefix, levels are those of the rest. */
  lemma LevelsAfterTop(s: string, t: string)
    requires AtTop(s)
    ensures Level(s + t, '<', '>') == Level(t, '<', '>')
    ensures Level(s + t, '[', ']') == Level(t, '[', ']')
    ensures Level(s + t, '{', '}') == Level(t, '{', '}')
    ensures AtTop(s + t) <==> AtTop(t)
    ensures NoneClosedEarly(s + t) <==> NoneClosedEarly(t)
  {
    LevelOfConcat(s, t, '<', '>');
    LevelOfConcat(s, t, '[', ']');
    LevelOfConcat(s, t, '{', '}');
  }

  /** No other character opens or closes anything, round brackets included. */
  lemma LevelOfPlain(c: char)
    requires c !in {'<', '>', '[', ']', '{', '}'}
    ensures AtTop([c]) && Opening([c])
  {
    assert [c][..0] == "" && [c][..1] == [c];
  }

  lemma OpeningAfterTop(s: string, t: string)
    requires AtTop(s) && Opening(s)
    ensures Opening(s + t) <==> Opening(t)
  {
    forall k | 0 <= k <= |t| ensures NoneClosedEarly((s + t)[..|s| + k]) <==> NoneClosedEarly(t[..k]) {
      assert (s + t)[..|s| + k] == s + t[..k];
      LevelsAfterTop(s, t[..k]);
    }
    if Opening(t) {
      forall k | 0 <= k <= |s + t| ensures NoneClosedEarly((s + t)[..k]) {
        if k <= |s| { assert (s + t)[..k] == s[..k]; } else { assert NoneClosedEarly(t[..k - |s|]); }
      }
    }
  }

  /** Trimming keeps a piece a piece. */
  lemma {:induction false} TrimStartIsPiece(s: string)
    requires IsPiece(s)
    ensures IsPiece(TrimStart(s))
    decreases |s|
  {
    if s != "" && IsSpace(s[0]) {
      var rest := s[1..];
      assert s == [s[0]] + rest;
      LevelOfPlain(s[0]);
      LevelsAfterTop([s[0]], rest);
      OpeningAfterTop([s[0]], rest);
      forall k | 0 <= k < |rest| && rest[k] == ',' ensures !AtTop(rest[..k]) {
        assert s[k + 1] == ',' && s[..k + 1] == [s[0]] + rest[..k];
        LevelsAfterTop([s[0]], rest[..k]);
      }
      TrimStartIsPiece(rest);
    }
  }

  lemma {:induction false} TrimEndIsPiece(s: string)
    requires IsPiece(s)
    ensures IsPiece(TrimEnd(s))
  {
    if s != "" && IsSpace(s[|s| - 1]) {
      var rest := s[..|s| - 1];
      assert forall k :: 0 <= k <= |rest| ==> rest[..k] == s[..k];
      TrimEndIsPiece(rest);
    }
  }

  predicate IsBracket(open: char, close: char) {
    (open == '<' && close == '>') || (open == '[' && close == ']') || (open == '{' && close == '}')
  }

  /**
   * Angle, square and curly brackets around balanced text hold it together, commas included, and a
   * bracket that is not closed, or closes nothing, unbalances the text.
   */
  lemma BracketsHold(open: char, close: char, inner: string)
    requires IsBracket(open, close) && Balanced(inner)
    ensures IsPiece([open] + inner + [close]) && !Balanced([open] + inner) && !Balanced([close] + inner)
  {
    var s := [open] + inner + [close];
    forall k | 0 < k <= |inner| + 1 ensures !AtTop(s[..k]) && NoneClosedEarly(s[..k]) {
      assert s[..k] == [open] + inner[..k - 1];
      InBracket(open, close, inner, k - 1);
    }
    assert s[..|s|] == s && s[..0] == "";
    Closed(open, close, inner);
    InBracket(open, close, inner, |inner|);
    assert inner[..|inner|] == inner;
    assert !Opening([close] + inner) by {
      assert ([close] + inner)[..1] == [close];
      LevelOfOne(close);
    }
  }

  lemma LevelOfOne(c: char)
    ensures forall open, close :: Level([c], open, close) == if c == open then 1 else if c == close then -1 else 0
  {
    assert [c][..0] == "";
  }

  lemma InBracket(open: char, close: char, inner: string, k: nat)
    requires IsBracket(open, close) && Opening(inner) && k <= |inner|
    ensures !AtTop([open] + inner[..k]) && NoneClosedEarly([open] + inner[..k])
  {
    LevelOfOne(open);
    assert NoneClosedEarly(inner[..k]);
    LevelOfConcat([open], inner[..k], '<', '>');
    LevelOfConcat([open], inner[..k], '[', ']');
    LevelOfConcat([open], inner[..k], '{', '}');
    hide Level;
  }

  lemma Closed(open: char, close: char, inner: string)
    requires IsBracket(open, close) && Balanced(inner)
    ensures AtTop([open] + inner + [close]) && NoneClosedEarly([open] + inner + [close])
  {
    LevelOfOne(open);
    LevelOfOne(close);
    LevelOfConcat([open], inner, '<', '>');
    LevelOfConcat([open], inner, '[', ']');
    LevelOfConcat([open], inner, '{', '}');
    LevelOfConcat([open] + inner, [close], '<', '>');
    LevelOfConcat([open] + inner, [close], '[', ']');
    LevelOfConcat([open] + inner, [close], '{', '}');
    hide Level, Opening;
  }

  /** The raw pieces of a balanced list: no piece has a top-level comma, and joined by commas they are the list. */
  ghost predicate IsSplit(value: string, raw: seq<string>) {
    raw != [] && Join(raw) == value && forall i :: 0 <= i < |raw| ==> IsPiece(raw[i])
  }

  /** The last piece is trimmed, and dropped when nothing is left of it. */
  function Finished(raw: seq<string>): seq<string>
    requires raw != []
  {
    var last := Trim(raw[|raw| - 1]);
    raw[..|raw| - 1] + if last == "" then [] else [last]
  }

  /** The state of the loop before index `i`: finished pieces, and an open one that starts at top level. */
  ghost predicate Splitting(value: string, i: nat, start: nat, parameters: seq<string>) {
    && start <= i <= |value| && AtTop(value[..start]) && Opening(value[..i])
    && Join(parameters + [value[start..i]]) == value[..i]
    && (forall k :: 0 <= k < |parameters| ==> IsPiece(parameters[k]))
    && NoTopComma(value[start..i])
  }

  lemma SplittingStart(value: string)
    ensures Splitting(value, 0, 0, [])
  {
    assert value[..0] == "" && Join([""]) == "";
  }

  /** What the loop reads off at index `i` are the levels of the open piece. */
  lemma LevelsOfOpenPiece(value: string, i: nat, start: nat, parameters: seq<string>)
    requires Splitting(value, i, start, parameters)
    ensures AtTop(value[..i]) <==> AtTop(value[start..i])
    ensures Opening(value[start..i])
  {
    assert value[..i] == value[..start] + value[start..i];
    LevelsAfterTop(value[..start], value[start..i]);
    assert Opening(value[..start]) by {
      assert forall k :: 0 <= k <= start ==> value[..start][..k] == value[..i][..k];
    }
    OpeningAfterTop(value[..start], value[start..i]);
  }

  lemma OpeningGrows(s: string, c: char)
    requires Opening(s) && NoneClosedEarly(s + [c])
    ensures Opening(s + [c])
  {
    var longer := s + [c];
    forall k | 0 <= k <= |longer| ensures NoneClosedEarly(longer[..k]) {
      if k <= |s| { assert longer[..k] == s[..k]; } else { assert longer[..k] == longer; }
    }
  }

  lemma LevelsOfNeutral(s: string, c: char)
    requires c == ','
    ensures AtTop(s + [c]) <==> AtTop(s)
  {
    LevelOfConcat(s, [c], '<', '>');
    LevelOfConcat(s, [c], '[', ']');
    LevelOfConcat(s, [c], '{', '}');
    LevelOfPlain(c);
  }

  lemma NoTopCommaGrows(s: string, c: char)
    requires NoTopComma(s) && (c == ',' ==> !AtTop(s))
    ensures NoTopComma(s + [c])
  {
    var longer := s + [c];
    forall k | 0 <= k < |longer| && longer[k] == ',' ensures !AtTop(longer[..k]) {
      assert longer[..k] == s[..k];
      assert k == |s| ==> s[..k] == s;
    }
  }

  lemma SplittingStep(value: string, i: nat, start: nat, parameters: seq<string>)
    requires i < |value| && Splitting(value, i, start, parameters) && NoneClosedEarly(value[..i + 1])
    ensures if value[i] == ',' && AtTop(value[..i + 1])
            then Splitting(value, i + 1, i + 1, parameters + [value[start..i]])
            else Splitting(value, i + 1, start, parameters)
  {
    hide Opening, NoTopComma, AtTop, NoneClosedEarly;
    var c, piece := value[i], value[start..i];
    LevelsOfOpenPiece(value, i, start, parameters);
    assert value[..i + 1] == value[..i] + [c];
    OpeningGrows(value[..i], c);
    if c == ',' { LevelsOfNeutral(value[..i], c); }
    if c == ',' && AtTop(value[..i + 1]) {
      assert value[i + 1..i + 1] == "";
      var all := (parameters + [piece]) + [""];
      assert all[..|all| - 1] == parameters + [piece];
      assert Join(all) == Join(parameters + [piece]) + "," + "";
      assert NoTopComma("") by { EmptyHasNoComma(); }
    } else {
      assert value[start..i + 1] == piece + [c];
      JoinLongerLast(parameters, piece, [c]);
      NoTopCommaGrows(piece, c);
    }
  }

  lemma EmptyHasNoComma()
    ensures NoTopComma("")
  {
  }

  lemma JoinLongerLast(parameters: seq<string>, last: string, more: string)
    ensures Join(parameters + [last + more]) == Join(parameters + [last]) + more
  {
    var one, other := parameters + [last + more], parameters + [last];
    assert one[..|one| - 1] == parameters == other[..|other| - 1];
  }

  /**
   * `splitParameters`: nothing exactly for unbalanced text; otherwise balanced pieces without a
   * top-level comma that rejoin to the text, up to the trimmed last piece.
   */
  method SplitParameters(value: string) returns (split: Option<seq<string>>)
    ensures split.None? <==> !Balanced(value)
    ensures split.Some? ==> exists raw :: IsSplit(value, raw) && split.value == Finished(raw)
    ensures split.Some? ==> forall i :: 0 <= i < |split.value| ==> IsPiece(split.value[i])
  {
    hide Splitting, Opening, NoTopComma;
    var parameters: seq<string> := [];
    var start := 0;
    var angleDepth, bracketDepth, braceDepth := 0, 0, 0;
    SplittingStart(value);
    assert value[..0] == "";
    for index := 0 to |value|
      invariant Splitting(value, index, start, parameters) && start <= index
      invariant angleDepth == Level(value[..index], '<', '>')
      invariant bracketDepth == Level(value[..index], '[', ']')
      invariant braceDepth == Level(value[..index], '{', '}')
    {
      var character := value[index];
      assert value[..index + 1][..index] == value[..index];
      if character == '<' { angleDepth := angleDepth + 1; }
      if character == '>' { angleDepth := angleDepth - 1; }
      if character == '[' { bracketDepth := bracketDepth + 1; }
      if character == ']' { bracketDepth := bracketDepth - 1; }
      if character == '{' { braceDepth := braceDepth + 1; }
      if character == '}' { braceDepth := braceDepth - 1; }
      if angleDepth < 0 || bracketDepth < 0 || braceDepth < 0 {
        NotOpening(value, index + 1);
        return None;
      }
      SplittingStep(value, index, start, parameters);
      if character == ',' && angleDepth == 0 && bracketDepth == 0 && braceDepth == 0 {
        parameters := parameters + [value[start..index]];
        start := index + 1;
      }
    }
    assert value[..|value|] == value;
    if angleDepth != 0 || bracketDepth != 0 || braceDepth != 0 { return None; }
    var last := Trim(value[start..]);
    assert value[start..] == value[start..|value|];
    SplittingEnd(value, start, parameters);
    TrimStartIsPiece(value[start..]);
    TrimEndIsPiece(TrimStart(value[start..]));
    ghost var raw := parameters + [value[start..]];
    assert raw[..|raw| - 1] == parameters;
    if |last| > 0 { parameters := parameters + [last]; }
    assert parameters == Finished(raw);
    return Some(parameters);
  }

  lemma NotOpening(value: string, k: nat)
    requires k <= |value| && !NoneClosedEarly(value[..k])
    ensures !Opening(value)
  {
  }

  lemma SplittingEnd(value: string, start: nat, parameters: seq<string>)
    requires Splitting(value, |value|, start, parameters) && AtTop(value)
    ensures start <= |value| && Balanced(value)
    ensures IsSplit(value, parameters + [value[start..]]) && IsPiece(value[start..])
    ensures forall k :: 0 <= k < |parameters| ==> IsPiece(parameters[k])
  {
    LevelsOfOpenPiece(value, |value|, start, parameters);
    assert value[..|value|] == value && value[start..|value|] == value[start..];
  }

  /** A text has at most one split, so the pieces are determined by what they promise. */
  lemma {:induction false} SplitIsUnique(value: string, one: seq<string>, other: seq<string>)
    requires IsSplit(value, one) && IsSplit(value, other)
    ensures one == other
    decreases |one|
  {
    if |one| == 1 && |other| == 1 {
    } else {
      LastPieceAgrees(value, one, other);
      if |one| > 1 && |other| > 1 {
        var n, m := |one| - 1, |other| - 1;
        assert one[..n] + [one[n]] == one && other[..m] + [other[m]] == other;
        assert Join(one[..n]) == value[..|value| - |one[n]| - 1];
        assert Join(other[..m]) == value[..|value| - |other[m]| - 1];
        SplitIsUnique(Join(one[..n]), one[..n], other[..m]);
      }
    }
  }

  lemma {:induction false} JoinIsAtTop(raw: seq<string>)
    requires raw != [] && forall i :: 0 <= i < |raw| ==> IsPiece(raw[i])
    ensures AtTop(Join(raw))
  {
    if |raw| > 1 {
      var front, last := raw[..|raw| - 1], raw[|raw| - 1];
      JoinIsAtTop(front);
      LevelOfPlain(',');
      LevelsAfterTop(Join(front), ",");
      LevelsAfterTop(Join(front) + ",", last);
    }
  }

  /** Both splits end in the same piece, and are single pieces together: else one's comma would be a top-level comma of the other's piece. */
  lemma LastPieceAgrees(value: string, one: seq<string>, other: seq<string>)
    requires IsSplit(value, one) && IsSplit(value, other)
    ensures one[|one| - 1] == other[|other| - 1]
    ensures |one| == 1 <==> |other| == 1
  {
    var p, q := one[|one| - 1], other[|other| - 1];
    SuffixIsLast(value, one);
    SuffixIsLast(value, other);
    LastIsNotLonger(value, one, other);
    LastIsNotLonger(value, other, one);
    assert p == value[|value| - |p|..] && q == value[|value| - |q|..];
    SingleIsWhole(one);
    SingleIsWhole(other);
  }

  lemma SingleIsWhole(raw: seq<string>)
    requires raw != []
    ensures |raw| == 1 <==> |raw[|raw| - 1]| == |Join(raw)|
  {
  }

  lemma SuffixIsLast(value: string, raw: seq<string>)
    requires IsSplit(value, raw)
    ensures |raw[|raw| - 1]| <= |value| && value[|value| - |raw[|raw| - 1]|..] == raw[|raw| - 1]
  {
  }

  lemma LastIsNotLonger(value: string, one: seq<string>, other: seq<string>)
    requires IsSplit(value, one) && IsSplit(value, other)
    ensures |one[|one| - 1]| <= |other[|other| - 1]|
  {
    hide Balanced, AtTop;
    var p, q := one[|one| - 1], other[|other| - 1];
    SuffixIsLast(value, one);
    SuffixIsLast(value, other);
    if |q| < |p| && |other| > 1 {
      // The comma before `q` lies inside `p`.
      var front := Join(other[..|other| - 1]);
      var k := |p| - |q| - 1;
      JoinIsAtTop(other[..|other| - 1]);
      PieceStartsAtTop(value, one);
      assert IsPiece(p);
      CommaInside(value, value[..|value| - |p|], p, front, q, k);
      assert false;
    }
  }

  lemma CommaInside(value: string, start: string, p: string, front: string, q: string, k: nat)
    requires value == start + p && value == front + "," + q && AtTop(start) && AtTop(front)
    requires |q| < |p| && k == |p| - |q| - 1
    ensures !NoTopComma(p)
  {
    hide AtTop;
    assert |front| == |start| + k;
    assert value[|front|] == ',';
    assert value[..|front|] == front;
    assert (start + p)[..|start| + k] == start + p[..k];
    LevelsAfterTop(start, p[..k]);
    assert p[k] == ',' && AtTop(p[..k]);
  }

  lemma PieceStartsAtTop(value: string, raw: seq<string>)
    requires IsSplit(value, raw)
    ensures |raw[|raw| - 1]| <= |value| && AtTop(value[..|value| - |raw[|raw| - 1]|])
  {
    if |raw| > 1 {
      var front := raw[..|raw| - 1];
      JoinIsAtTop(front);
      LevelOfPlain(',');
      LevelsAfterTop(Join(front), ",");
      assert value[..|value| - |raw[|raw| - 1]|] == Join(front) + ",";
    } else {
      assert value[..0] == "";
    }
  }

  // ---- Classification ----

  datatype Parameter = Parameter(name: string, typ: string, optional: bool, rest: bool)

  datatype Signature = Signature(name: string, parameters: seq<Parameter>, returnType: string)

  datatype Compatibility = Compatible | Breaking | Unknown

  /** What `parseFunction` guarantees: a rest parameter is last and not optional. */
  predicate WellFormed(s: Signature) {
    forall i :: 0 <= i < |s.parameters| && s.parameters[i].rest ==> i == |s.parameters| - 1 && !s.parameters[i].optional
  }

  /** The classifier's verdict on two parsed signatures, as a predicate. */
  predicate Keeps(before: Signature, after: Signature) {
    && before.name == after.name && before.returnType == after.returnType
    && |before.parameters| <= |after.parameters|
    && (forall i :: 0 <= i < |before.parameters| ==>
          && before.parameters[i].typ == after.parameters[i].typ && before.parameters[i].rest == after.parameters[i].rest
          && (before.parameters[i].optional ==> after.parameters[i].optional))
    && (forall i :: |before.parameters| <= i < |after.parameters| ==> after.parameters[i].optional || after.parameters[i].rest)
  }

  /** `classifyContractCompatibility` on whitespace-normalized text, with `parse` standing for `parseFunction`. */
  method Classify(before: string, after: string, parse: string -> Option<Signature>) returns (verdict: Compatibility)
    ensures verdict == Compatible <==>
              before != "" && parse(before).Some? && parse(after).Some? && Keeps(parse(before).value, parse(after).value)
              && (after != "" || before == after)
    ensures verdict == Unknown <==>
              before == "" || parse(before).None? || (after != "" && parse(after).None?)
  {
    if before == "" { return Unknown; }
    var previous := parse(before);
    if previous.None? { return Unknown; }
    if before == after { return Compatible; }
    if after == "" { return Breaking; }
    var current := parse(after);
    if current.None? { return Unknown; }
    var p, c := previous.value, current.value;
    if p.name != c.name || p.returnType != c.returnType { return Breaking; }
    if |c.parameters| < |p.parameters| { return Breaking; }
    for index := 0 to |p.parameters|
      invariant forall i :: 0 <= i < index ==>
                  && p.parameters[i].typ == c.parameters[i].typ && p.parameters[i].rest == c.parameters[i].rest
                  && (p.parameters[i].optional ==> c.parameters[i].optional)
    {
      var b, a := p.parameters[index], c.parameters[index];
      if b.typ != a.typ || b.rest != a.rest { return Breaking; }
      if b.optional && !a.optional { return Breaking; }
    }
    for index := |p.parameters| to |c.parameters|
      invariant forall i :: |p.parameters| <= i < index ==> c.parameters[i].optional || c.parameters[i].rest
    {
      if !c.parameters[index].optional && !c.parameters[index].rest { return Breaking; }
    }
    return Compatible;
  }

  // ---- Calls ----

  /** A value of a nominal type, or an explicit `undefined`. */
  datatype Argument = Undefined | Of(typ: string)

  /** How argument `i` fares; `elem` gives the element type a rest parameter's type text names. */
  predicate Takes(s: Signature, elem: string -> string, i: nat, a: Argument) {
    if i < |s.parameters| && !s.parameters[i].rest then
      a == Of(s.parameters[i].typ) || (s.parameters[i].optional && a == Undefined)
    else
      s.parameters != [] && s.parameters[|s.parameters| - 1].rest && a == Of(elem(s.parameters[|s.parameters| - 1].typ))
  }

  /** A call is accepted: every argument is taken and no required parameter is missing. */
  ghost predicate Accepts(s: Signature, elem: string -> string, arguments: seq<Argument>) {
    && (forall i :: 0 <= i < |arguments| ==> Takes(s, elem, i, arguments[i]))
    && (forall i :: |arguments| <= i < |s.parameters| ==> s.parameters[i].optional || s.parameters[i].rest)
  }

  ghost predicate Contains(before: Signature, after: Signature, elem: string -> string) {
    forall arguments :: Accepts(before, elem, arguments) ==> Accepts(after, elem, arguments)
  }

  /** Rest parameters stand at the same places as far as both lists go. */
  predicate Aligned(before: Signature, after: Signature) {
    forall i :: 0 <= i < |before.parameters| && i < |after.parameters| ==> before.parameters[i].rest == after.parameters[i].rest
  }

  /** `compatible` is sound: no call the old signature accepted is rejected by the new one. */
  lemma CompatibleIsSound(before: Signature, after: Signature, elem: string -> string, arguments: seq<Argument>)
    requires WellFormed(before) && WellFormed(after) && Keeps(before, after)
    requires Accepts(before, elem, arguments)
    ensures Accepts(after, elem, arguments)
  {
    var n := |before.parameters|;
    if n > 0 && before.parameters[n - 1].rest {
      assert after.parameters[n - 1].rest;
      assert |after.parameters| == n;
    } else {
      assert forall i :: 0 <= i < |arguments| ==> Takes(before, elem, i, arguments[i]);
      assert forall a :: !Takes(before, elem, n, a);
    }
    forall i | 0 <= i < |arguments| ensures Takes(after, elem, i, arguments[i]) {
      assert Takes(before, elem, i, arguments[i]);
    }
  }

  lemma KeepsIsTransitive(a: Signature, b: Signature, c: Signature)
    requires WellFormed(a) && WellFormed(b) && WellFormed(c)
    requires Keeps(a, b) && Keeps(b, c)
    ensures Keeps(a, c)
  {
    forall i | |a.parameters| <= i < |c.parameters| ensures c.parameters[i].optional || c.parameters[i].rest {
      if i < |b.parameters| { assert b.parameters[i].optional || b.parameters[i].rest; }
    }
  }

  /** The signatures differ at most in the names of their parameters. */
  predicate EqualUpToNames(a: Signature, b: Signature) {
    && a.name == b.name && a.returnType == b.returnType && |a.parameters| == |b.parameters|
    && forall i :: 0 <= i < |a.parameters| ==> a.parameters[i] == b.parameters[i].(name := a.parameters[i].name)
  }

  /** Compatible both ways, a signature with itself included, are exactly those that differ in parameter names only. */
  lemma KeepsBothWaysIff(a: Signature, b: Signature)
    ensures Keeps(a, b) && Keeps(b, a) <==> EqualUpToNames(a, b)
  {
    if EqualUpToNames(a, b) {
      forall i | 0 <= i < |a.parameters|
        ensures a.parameters[i].typ == b.parameters[i].typ && a.parameters[i].rest == b.parameters[i].rest
        ensures a.parameters[i].optional == b.parameters[i].optional
      {
        assert a.parameters[i] == b.parameters[i].(name := a.parameters[i].name);
      }
    }
  }

  /** One argument per parameter, as its type asks. */
  function FullCall(s: Signature, elem: string -> string): (arguments: seq<Argument>)
    ensures |arguments| == |s.parameters|
  {
    seq(|s.parameters|, i requires 0 <= i < |s.parameters| =>
      Of(if s.parameters[i].rest then elem(s.parameters[i].typ) else s.parameters[i].typ))
  }

  lemma FullCallIsAccepted(s: Signature, elem: string -> string)
    requires WellFormed(s)
    ensures Accepts(s, elem, FullCall(s, elem))
  {
  }

  /** With `undefined` for one optional parameter the call is still accepted. */
  lemma OmittingOptional(s: Signature, elem: string -> string, i: nat)
    requires WellFormed(s) && i < |s.parameters| && s.parameters[i].optional
    ensures Accepts(s, elem, FullCall(s, elem)[i := Undefined])
  {
    FullCallIsAccepted(s, elem);
  }

  ghost predicate Injective(elem: string -> string) {
    forall s, t :: elem(s) == elem(t) ==> s == t
  }

  /**
   * The classifier is exact where rest parameters line up: among signatures of equal name and return
   * type it says compatible exactly when they line up and every accepted call stays accepted.
   */
  lemma CompatibleIff(before: Signature, after: Signature, elem: string -> string)
    requires WellFormed(before) && WellFormed(after) && Injective(elem)
    requires before.name == after.name && before.returnType == after.returnType
    ensures Keeps(before, after) <==> Aligned(before, after) && Contains(before, after, elem)
  {
    if Keeps(before, after) {
      forall arguments | Accepts(before, elem, arguments) ensures Accepts(after, elem, arguments) {
        CompatibleIsSound(before, after, elem, arguments);
      }
    }
    if Aligned(before, after) && Contains(before, after, elem) { ContainedIsKept(before, after, elem); }
  }

  lemma ContainedIsKept(before: Signature, after: Signature, elem: string -> string)
    requires WellFormed(before) && WellFormed(after) && Injective(elem) && Aligned(before, after) && Contains(before, after, elem)
    requires before.name == after.name && before.returnType == after.returnType
    ensures Keeps(before, after)
  {
    var n, m, full := |before.parameters|, |after.parameters|, FullCall(before, elem);
    FullCallIsAccepted(before, elem);
    assert Accepts(after, elem, full);
    assert m > 0 && m < n ==> !before.parameters[m - 1].rest && !after.parameters[m - 1].rest;
    assert m < n ==> !Takes(after, elem, m, full[m]);
    forall i | 0 <= i < n
      ensures before.parameters[i].typ == after.parameters[i].typ
      ensures before.parameters[i].optional ==> after.parameters[i].optional
    {
      assert Takes(after, elem, i, full[i]);
      if before.parameters[i].optional {
        OmittingOptional(before, elem, i);
        assert Accepts(after, elem, full[i := Undefined]);
        assert Takes(after, elem, i, full[i := Undefined][i]);
      }
    }
  }

  /** Rest-free signatures always line up, so there the classifier is exact without condition. */
  lemma CompatibleIffRestFree(before: Signature, after: Signature, elem: string -> string)
    requires Injective(elem) && before.name == after.name && before.returnType == after.returnType
    requires forall i :: 0 <= i < |before.parameters| ==> !before.parameters[i].rest
    requires forall i :: 0 <= i < |after.parameters| ==> !after.parameters[i].rest
    ensures Keeps(before, after) <==> Contains(before, after, elem)
  {
    CompatibleIff(before, after, elem);
  }

  /** Where they do not line up the classifier can refuse a change no caller can notice. */
  lemma WideningToRestIsBreaking(elem: string -> string)
    requires elem("string[]") == "string"
    ensures exists before, after :: WellFormed(before) && WellFormed(after) && before.name == after.name
                                    && before.returnType == after.returnType && Contains(before, after, elem) && !Keeps(before, after)
  {
    var before := Signature("f", [Parameter("a", "string", false, false)], "void");
    var after := Signature("f", [Parameter("a", "string[]", false, true)], "void");
    forall arguments | Accepts(before, elem, arguments) ensures Accepts(after, elem, arguments) {
      forall i | 0 <= i < |arguments| ensures Takes(after, elem, i, arguments[i]) {
        assert Takes(before, elem, i, arguments[i]);
      }
    }
    assert !Keeps(before, after) by { assert before.parameters[0].rest != after.parameters[0].rest; }
  }
}
