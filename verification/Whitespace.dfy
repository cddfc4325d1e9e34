/** What Python takes to be white space in text, and how `str.strip` removes it. */
module Whitespace {
  predicate IsSpace(c: char) {
    || c == ' ' || '\t' <= c <= '\r' || '\U{001C}' <= c <= '\U{001F}'
    || c == '\U{0085}' || c == '\U{00A0}' || c == '\U{1680}' || '\U{2000}' <= c <= '\U{200A}'
    || c == '\U{2028}' || c == '\U{2029}' || c == '\U{202F}' || c == '\U{205F}' || c == '\U{3000}'
  }

  function StripLeft(s: string): string {
    if s != "" && IsSpace(s[0]) then StripLeft(s[1..]) else s
  }

  function StripRight(s: string): string {
    if s != "" && IsSpace(s[|s| - 1]) then StripRight(s[..|s| - 1]) else s
  }

  function Strip(s: string): string {
    StripRight(StripLeft(s))
  }

  lemma {:induction false} StripsNothing(s: string)
    requires s != "" ==> !IsSpace(s[0]) && !IsSpace(s[|s| - 1])
    ensures Strip(s) == s
  {
  }

  /** Nothing is left of a text by stripping it. */
  predicate Blank(s: string) {
    forall c :: c in s ==> IsSpace(c)
  }

  lemma {:induction false} StripLeftOf(lead: string, text: string)
    requires Blank(lead) && (text != "" ==> !IsSpace(text[0]))
    ensures StripLeft(lead + text) == text
    decreases |lead|
  {
    if lead == "" {
      assert lead + text == text;
    } else {
      assert lead[0] in lead && forall c :: c in lead[1..] ==> c in lead;
      StripLeftOf(lead[1..], text);
      assert (lead + text)[1..] == lead[1..] + text;
    }
  }

  lemma {:induction false} StripRightOf(text: string, trail: string)
    requires Blank(trail) && (text != "" ==> !IsSpace(text[|text| - 1]))
    ensures StripRight(text + trail) == text
    decreases |trail|
  {
    if trail == "" {
      assert text + trail == text;
    } else {
      var n := |trail| - 1;
      assert trail[n] in trail && forall c :: c in trail[..n] ==> c in trail;
      StripRightOf(text, trail[..n]);
      assert (text + trail)[..|text| + n] == text + trail[..n];
    }
  }

  /** Stripping removes the white space around a text and nothing of the text. */
  lemma {:induction false} StripOf(lead: string, text: string, trail: string)
    requires Blank(lead) && Blank(trail) && text != ""
    requires !IsSpace(text[0]) && !IsSpace(text[|text| - 1])
    ensures Strip(lead + text + trail) == text
  {
    assert lead + text + trail == lead + (text + trail);
    StripLeftOf(lead, text + trail);
    StripRightOf(text, trail);
  }

  lemma {:induction false} StripLeftCuts(s: string) returns (a: nat)
    ensures a <= |s| && Blank(s[..a]) && StripLeft(s) == s[a..]
  {
    if s != "" && IsSpace(s[0]) {
      var b := StripLeftCuts(s[1..]);
      a := b + 1;
      assert s[..a] == [s[0]] + s[1..][..b];
    } else {
      a := 0;
    }
  }

  lemma {:induction false} StripRightCuts(s: string) returns (b: nat)
    ensures b <= |s| && StripRight(s) == s[..b]
    decreases |s|
  {
    if s != "" && IsSpace(s[|s| - 1]) {
      b := StripRightCuts(s[..|s| - 1]);
    } else {
      b := |s|;
    }
  }

  /** What is left by stripping stands behind white space only. */
  lemma {:induction false} StripCuts(s: string) returns (a: nat, b: nat)
    ensures a <= b <= |s| && Blank(s[..a]) && Strip(s) == s[a..b]
  {
    a := StripLeftCuts(s);
    var n := StripRightCuts(s[a..]);
    b := a + n;
  }

  lemma {:induction false} StripRightToNothing(s: string)
    ensures StripRight(s) == "" <==> Blank(s)
    decreases |s|
  {
    if s != "" {
      StripRightToNothing(s[..|s| - 1]);
      assert s == s[..|s| - 1] + [s[|s| - 1]];
    }
  }

  /** `not text.strip()`. */
  lemma {:induction false} StripsToNothing(s: string)
    ensures Strip(s) == "" <==> Blank(s)
    decreases |s|
  {
    if s != "" && IsSpace(s[0]) {
      StripsToNothing(s[1..]);
      assert s == [s[0]] + s[1..];
    } else {
      StripRightToNothing(s);
    }
  }
}
