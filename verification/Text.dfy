/** The string operations of the source language that the models need. */
module Text {
  /** str.isspace, the characters str.strip removes. */
  predicate IsSpace(c: char) {
    || '\t' <= c <= '\r' || '\U{1C}' <= c <= '\U{1F}' || c == ' ' || c == '\U{85}' || c == '\U{A0}'
    || c == '\U{1680}' || '\U{2000}' <= c <= '\U{200A}' || c == '\U{2028}' || c == '\U{2029}'
    || c == '\U{202F}' || c == '\U{205F}' || c == '\U{3000}'
  }

  function StripLeft(text: string): string {
    if text != "" && IsSpace(text[0]) then StripLeft(text[1..]) else text
  }

  function StripRight(text: string): string {
    if text != "" && IsSpace(text[|text| - 1]) then StripRight(text[..|text| - 1]) else text
  }

  function Strip(text: string): string { StripRight(StripLeft(text)) }

  /** No blank at either end. */
  predicate Trimmed(text: string) {
    text != "" ==> !IsSpace(text[0]) && !IsSpace(text[|text| - 1])
  }

  lemma {:induction false} StripRightFacts(text: string)
    ensures StripRight(text) <= text
    ensures StripRight(text) != "" ==> !IsSpace(StripRight(text)[|StripRight(text)| - 1])
  {
    if text != "" && IsSpace(text[|text| - 1]) { StripRightFacts(text[..|text| - 1]); }
  }

  lemma {:induction false} StripLeftFacts(text: string)
    ensures StripLeft(text) != "" ==> !IsSpace(StripLeft(text)[0])
  {
    if text != "" && IsSpace(text[0]) { StripLeftFacts(text[1..]); }
  }

  lemma {:induction false} StripTrims(text: string)
    ensures Trimmed(Strip(text)) && Strip(Strip(text)) == Strip(text)
  {
    StripLeftFacts(text);
    StripRightFacts(StripLeft(text));
    StripTrimmed(Strip(text));
  }

  lemma {:induction false} StripTrimmed(text: string)
    requires Trimmed(text)
    ensures Strip(text) == text
  {
  }

  predicate AllSpace(text: string) { forall i :: 0 <= i < |text| ==> IsSpace(text[i]) }

  /** Stripping takes only blanks away, and only at the ends. */
  lemma {:induction false} StripSplits(text: string) returns (left: string, right: string)
    ensures text == left + Strip(text) + right && AllSpace(left) && AllSpace(right)
  {
    left := LeftSplits(text);
    right := RightSplits(StripLeft(text));
    assert text == left + (Strip(text) + right);
  }

  lemma {:induction false} LeftSplits(text: string) returns (left: string)
    ensures text == left + StripLeft(text) && AllSpace(left)
  {
    if text != "" && IsSpace(text[0]) {
      left := LeftSplits(text[1..]);
      assert text == [text[0]] + text[1..];
      left := [text[0]] + left;
    } else {
      left := "";
    }
  }

  lemma {:induction false} RightSplits(text: string) returns (right: string)
    ensures text == StripRight(text) + right && AllSpace(right)
  {
    if text != "" && IsSpace(text[|text| - 1]) {
      right := RightSplits(text[..|text| - 1]);
      assert text == text[..|text| - 1] + [text[|text| - 1]];
      right := right + [text[|text| - 1]];
    } else {
      right := "";
    }
  }

  function Lower(text: string): string {
    if text == "" then ""
    else [if 'A' <= text[0] <= 'Z' then (text[0] as int + 32) as char else text[0]] + Lower(text[1..])
  }

  /** Lower-casing changes the capital letters and nothing else. */
  lemma {:induction false} LowerAt(text: string, i: nat)
    requires i < |text|
    ensures |Lower(text)| == |text|
    ensures 'A' <= text[i] <= 'Z' ==> 'a' <= Lower(text)[i] <= 'z' && Lower(text)[i] - 'a' == text[i] - 'A'
    ensures !('A' <= text[i] <= 'Z') ==> Lower(text)[i] == text[i]
  {
    if |text| > 1 { LowerAt(text[1..], if i > 0 then i - 1 else 0); }
  }

  lemma {:induction false} LowerFixed(text: string)
    requires forall c :: c in text ==> !('A' <= c <= 'Z')
    ensures Lower(text) == text
  {
    if text != "" {
      assert text[0] in text && forall c :: c in text[1..] ==> c in text;
      LowerFixed(text[1..]);
      assert text == [text[0]] + text[1..];
    }
  }

  /** str.rstrip(".") */
  function StripDots(text: string): string {
    if text != "" && text[|text| - 1] == '.' then StripDots(text[..|text| - 1]) else text
  }

  predicate AllDots(text: string) { forall i :: 0 <= i < |text| ==> text[i] == '.' }

  lemma {:induction false} DotsSplit(text: string) returns (dots: string)
    ensures text == StripDots(text) + dots && AllDots(dots)
  {
    if text != "" && text[|text| - 1] == '.' {
      dots := DotsSplit(text[..|text| - 1]);
      assert text == text[..|text| - 1] + ".";
      dots := dots + ".";
    } else {
      dots := "";
    }
  }

  lemma {:induction false} DotsDropped(body: string, dots: string)
    requires AllDots(dots) && (body != "" ==> body[|body| - 1] != '.')
    ensures StripDots(body + dots) == body
  {
    if dots == "" {
      assert body + dots == body;
    } else {
      DotsDropped(body, dots[..|dots| - 1]);
      assert (body + dots)[..|body + dots| - 1] == body + dots[..|dots| - 1];
    }
  }
}
