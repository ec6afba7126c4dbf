/**
 * Decimal text for integers: Python's `str(int)` and the subset of `int(str)`
 * that the core relies on (surrounding whitespace, an optional sign, decimal
 * digits with single underscores between them), and the piece of a text after
 * its last occurrence of a character (`text.split(c)[-1]`).
 */
module Text {
  import opened Wrappers

  predicate IsDigit(c: char) { '0' <= c <= '9' }

  /** ASCII whitespace as `str.isspace` sees it (Unicode spaces are not modelled). */
  predicate IsSpace(c: char)
  {
    c == ' ' || (9 <= c as int <= 13) || (28 <= c as int <= 31)
  }

  function DigitChar(d: nat): (c: char)
    requires d < 10
    ensures IsDigit(c) && !IsSpace(c)
  {
    "0123456789"[d]
  }

  function DigitValue(c: char): (d: nat)
    requires IsDigit(c)
    ensures d < 10 && DigitChar(d) == c
  {
    (c as int - '0' as int) as nat
  }

  function NatToString(n: nat): (s: string)
    ensures |s| > 0 && forall i | 0 <= i < |s| :: IsDigit(s[i])
    decreases n
  {
    if n < 10 then [DigitChar(n)] else NatToString(n / 10) + [DigitChar(n % 10)]
  }

  /** `str(i)` */
  function IntToString(i: int): (s: string)
    ensures |s| > 0 && forall k | 0 <= k < |s| :: (IsDigit(s[k]) || (k == 0 && s[k] == '-'))
  {
    if i < 0 then "-" + NatToString(-i) else NatToString(i)
  }

  function StripLeft(s: string): (r: string)
    ensures r == [] || !IsSpace(r[0])
    ensures |r| <= |s| && r == s[|s| - |r|..]
  {
    if s != [] && IsSpace(s[0]) then StripLeft(s[1..]) else s
  }

  function StripRight(s: string): (r: string)
    ensures r == [] || !IsSpace(r[|r| - 1])
    ensures |r| <= |s| && r == s[..|r|]
  {
    if s != [] && IsSpace(s[|s| - 1]) then StripRight(s[..|s| - 1]) else s
  }

  /** `str.strip()` */
  function Strip(s: string): string
  {
    StripRight(StripLeft(s))
  }

  /** Digits with single underscores between them, as Python integer literals allow. */
  predicate DigitBody(s: string)
  {
    && |s| > 0 && IsDigit(s[0]) && IsDigit(s[|s| - 1])
    && (forall i | 0 <= i < |s| :: IsDigit(s[i]) || s[i] == '_')
    && (forall i | 0 <= i < |s| - 1 :: s[i] == '_' ==> s[i + 1] != '_')
  }

  /** The value of a digit string, underscores skipped. */
  function BodyValue(s: string): nat
    requires forall i | 0 <= i < |s| :: IsDigit(s[i]) || s[i] == '_'
  {
    if s == [] then 0
    else if s[|s| - 1] == '_' then BodyValue(s[..|s| - 1])
    else BodyValue(s[..|s| - 1]) * 10 + DigitValue(s[|s| - 1])
  }

  function ParseUnsigned(s: string): Option<int>
  {
    if DigitBody(s) then Some(BodyValue(s)) else None
  }

  /** `int(s)` for a string: None where Python raises ValueError. */
  function ParseInt(s: string): Option<int>
  {
    var t := Strip(s);
    if |t| > 0 && t[0] == '-' then
      match ParseUnsigned(t[1..]) case None => None case Some(v) => Some(-v)
    else if |t| > 0 && t[0] == '+' then ParseUnsigned(t[1..])
    else ParseUnsigned(t)
  }

  lemma {:induction false} NatToStringValue(n: nat)
    ensures DigitBody(NatToString(n))
    ensures BodyValue(NatToString(n)) == n
    decreases n
  {
    var s := NatToString(n);
    if n >= 10 {
      NatToStringValue(n / 10);
      var init := NatToString(n / 10);
      assert s[..|s| - 1] == init;
    }
  }

  lemma StripNoSpace(s: string)
    requires |s| > 0 && !IsSpace(s[0]) && !IsSpace(s[|s| - 1])
    ensures Strip(s) == s
  {
  }

  /** `int(str(i)) == i` */
  lemma IntToStringRoundTrip(i: int)
    ensures ParseInt(IntToString(i)) == Some(i)
  {
    var s := IntToString(i);
    var digits := NatToString(if i < 0 then -i else i);
    NatToStringValue(if i < 0 then -i else i);
    assert !IsSpace(s[0]) && !IsSpace(s[|s| - 1]);
    StripNoSpace(s);
    if i < 0 {
      assert s[1..] == digits;
    }
  }

  /** `int` ignores surrounding whitespace: `int(" " + str(i)) == i`. */
  lemma IntToStringPadded(i: int, pre: string, post: string)
    requires forall k | 0 <= k < |pre| :: IsSpace(pre[k])
    requires forall k | 0 <= k < |post| :: IsSpace(post[k])
    ensures ParseInt(pre + IntToString(i) + post) == Some(i)
  {
    var s := IntToString(i);
    StripAround(pre, s, post);
    IntToStringRoundTrip(i);
    StripNoSpace(s);
  }

  lemma {:induction false} StripLeftSpaces(pre: string, s: string)
    requires forall k | 0 <= k < |pre| :: IsSpace(pre[k])
    requires |s| > 0 && !IsSpace(s[0])
    ensures StripLeft(pre + s) == s
  {
    if pre != [] {
      assert (pre + s)[1..] == pre[1..] + s;
      StripLeftSpaces(pre[1..], s);
    } else {
      assert pre + s == s;
    }
  }

  lemma {:induction false} StripRightSpaces(s: string, post: string)
    requires forall k | 0 <= k < |post| :: IsSpace(post[k])
    requires |s| > 0 && !IsSpace(s[|s| - 1])
    ensures StripRight(s + post) == s
  {
    if post != [] {
      assert (s + post)[..|s + post| - 1] == s + post[..|post| - 1];
      StripRightSpaces(s, post[..|post| - 1]);
    } else {
      assert s + post == s;
    }
  }

  lemma StripAround(pre: string, s: string, post: string)
    requires forall k | 0 <= k < |pre| :: IsSpace(pre[k])
    requires forall k | 0 <= k < |post| :: IsSpace(post[k])
    requires |s| > 0 && !IsSpace(s[0]) && !IsSpace(s[|s| - 1])
    ensures Strip(pre + s + post) == Strip(s)
  {
    assert pre + s + post == pre + (s + post);
    StripLeftSpaces(pre, s + post);
    StripRightSpaces(s, post);
    StripNoSpace(s);
  }

  /** The suffix after the last `c`, as `text.split(c)[-1]`; the whole text when `c` does not occur. */
  function AfterLast(text: string, c: char): (r: string)
    ensures |r| <= |text| && r == text[|text| - |r|..]
    ensures c !in r
    ensures c in text ==> |r| < |text| && text[|text| - |r| - 1] == c
    ensures c !in text ==> r == text
  {
    if text == [] then []
    else if text[|text| - 1] == c then []
    else AfterLast(text[..|text| - 1], c) + [text[|text| - 1]]
  }

  /** The suffix after the last `c` of `pre + post`, when `pre` ends in `c` and `post` has none. */
  lemma {:induction false} AfterLastSuffix(pre: string, post: string, c: char)
    requires |pre| > 0 && pre[|pre| - 1] == c && c !in post
    ensures AfterLast(pre + post, c) == post
    decreases |post|
  {
    if post == [] {
      assert pre + post == pre;
    } else {
      var init := post[..|post| - 1];
      assert (pre + post)[..|pre + post| - 1] == pre + init;
      assert forall k | 0 <= k < |init| :: init[k] == post[k];
      assert c !in init;
      AfterLastSuffix(pre, init, c);
      assert post == init + [post[|post| - 1]];
    }
  }
}
