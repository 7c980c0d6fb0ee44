/** Python's decimal printing (`str(n)`) and `int(text)`. */
module Decimal {
  import opened Common

  predicate IsDigit(c: char) {
    '0' <= c <= '9'
  }

  /** The ASCII characters `str.strip()` removes. */
  predicate IsSpace(c: char) {
    c == ' ' || '\t' <= c <= '\r' || 28 as char <= c <= 31 as char
  }

  function DigitChar(d: nat): (c: char)
    requires d < 10
    ensures IsDigit(c) && !IsSpace(c) && c as int == '0' as int + d
  {
    ('0' as int + d) as char
  }

  /** The decimal digits, without leading zeros. */
  function Print(n: nat): (s: string)
    ensures s != "" && AllDigits(s)
  {
    if n < 10 then [DigitChar(n)] else Print(n / 10) + [DigitChar(n % 10)]
  }

  predicate AllSpace(s: string) {
    forall k :: 0 <= k < |s| ==> IsSpace(s[k])
  }

  function StripLeft(s: string): (r: string)
    ensures |r| <= |s| && (r != "" ==> !IsSpace(r[0]))
  {
    if s != "" && IsSpace(s[0]) then StripLeft(s[1..]) else s
  }

  function StripRight(s: string): (r: string)
    ensures r <= s && (r != "" ==> !IsSpace(r[|r| - 1]))
  {
    if s != "" && IsSpace(s[|s| - 1]) then StripRight(s[..|s| - 1]) else s
  }

  function Strip(s: string): string {
    StripRight(StripLeft(s))
  }

  lemma {:induction false} StripLeftParts(s: string)
    ensures s[|s| - |StripLeft(s)|..] == StripLeft(s) && AllSpace(s[..|s| - |StripLeft(s)|])
  {
    if s != "" && IsSpace(s[0]) {
      StripLeftParts(s[1..]);
    }
  }

  lemma {:induction false} StripRightParts(s: string)
    ensures AllSpace(s[|StripRight(s)|..])
  {
    if s != "" && IsSpace(s[|s| - 1]) {
      StripRightParts(s[..|s| - 1]);
    }
  }

  /** The text is white space, what stripping leaves, and white space again; what is left starts and ends with
      another character, or is empty. */
  lemma StripParts(s: string) returns (before: string, after: string)
    ensures s == before + Strip(s) + after && AllSpace(before) && AllSpace(after)
    ensures Strip(s) != "" ==> !IsSpace(Strip(s)[0]) && !IsSpace(Strip(s)[|Strip(s)| - 1])
  {
    var left := StripLeft(s);
    StripLeftParts(s);
    StripRightParts(left);
    before, after := s[..|s| - |left|], left[|Strip(s)|..];
  }

  /** Nothing else is left: a text that starts and ends with another character, put between white space, is
      what stripping gives back. */
  lemma StripOfPadded(before: string, core: string, after: string)
    requires AllSpace(before) && AllSpace(after)
    requires core != "" ==> !IsSpace(core[0]) && !IsSpace(core[|core| - 1])
    ensures Strip(before + core + after) == core
  {
    var s := before + core + after;
    var b, a := StripParts(s);
    var r := Strip(s);
    hide StripLeft, StripRight, Strip;
    SameTrim(before, core, after, b, r, a);
  }

  /** A text is cut into white space, core and white space in one way only. */
  lemma SameTrim(b: string, r: string, a: string, b': string, r': string, a': string)
    requires b + r + a == b' + r' + a' && AllSpace(b) && AllSpace(a) && AllSpace(b') && AllSpace(a')
    requires r != "" ==> !IsSpace(r[0]) && !IsSpace(r[|r| - 1])
    requires r' != "" ==> !IsSpace(r'[0]) && !IsSpace(r'[|r'| - 1])
    ensures r == r'
  {
    hide IsSpace;
    var s := b + r + a;
    assert r == s[|b|..|b| + |r|] && r' == s[|b'|..|b'| + |r'|];
    CoreStarts(b, r, a, b', r', a');
    CoreStarts(b', r', a', b, r, a);
  }

  /** The core of one cut lies within the core of the other. */
  lemma CoreStarts(b: string, r: string, a: string, b': string, r': string, a': string)
    requires b + r + a == b' + r' + a' && AllSpace(b') && AllSpace(a')
    requires r != "" ==> !IsSpace(r[0]) && !IsSpace(r[|r| - 1])
    ensures r != "" ==> |b'| <= |b| && |b| + |r| <= |b'| + |r'|
  {
    hide IsSpace;
    var s := b + r + a;
    if r != "" {
      assert s[|b|] == r[0] && s[|b| + |r| - 1] == r[|r| - 1];
      assert forall k :: 0 <= k < |b'| ==> s[k] == b'[k];
      assert forall k :: |b'| + |r'| <= k < |s| ==> s[k] == a'[k - |b'| - |r'|];
    }
  }

  /** The white space and the digits by their codes. */
  lemma CharacterCodes(c: char)
    ensures IsSpace(c) <==> c as int in {9, 10, 11, 12, 13, 28, 29, 30, 31, 32}
    ensures IsDigit(c) <==> 48 <= c as int <= 57
  {
  }

  /** Digits with single underscores allowed between them; `acc` is the value read so far. */
  function ParseDigits(s: string, acc: nat): Option<nat> {
    if s == "" || !IsDigit(s[0]) then None
    else
      var v := acc * 10 + (s[0] as int - '0' as int);
      if |s| == 1 then Some(v)
      else if s[1] == '_' then ParseDigits(s[2..], v)
      else ParseDigits(s[1..], v)
  }

  /** Reads an integer as Python's `int` does, None standing for ValueError. */
  function ParseInt(text: string): Option<int> {
    Signed(Strip(text))
  }

  /** An optional sign and digits. */
  function Signed(s: string): Option<int> {
    if s != "" && s[0] == '-' then
      (match ParseDigits(s[1..], 0) case Some(v) => Some(-(v as int)) case None => None)
    else
      (match ParseDigits(if s != "" && s[0] == '+' then s[1..] else s, 0) case Some(v) => Some(v as int) case None => None)
  }

  predicate AllDigits(s: string) {
    forall i :: 0 <= i < |s| ==> IsDigit(s[i])
  }

  /** The value of a digit string read from the left. */
  function Value(s: string, acc: nat): nat
    requires AllDigits(s)
  {
    if s == "" then acc
    else
      assert IsDigit(s[0]);
      Value(s[1..], acc * 10 + (s[0] as int - '0' as int))
  }

  lemma {:induction false} ValueSnoc(s: string, acc: nat)
    requires s != "" && AllDigits(s)
    ensures Value(s, acc) == Value(s[..|s| - 1], acc) * 10 + (s[|s| - 1] as int - '0' as int)
  {
    assert IsDigit(s[0]);
    if |s| > 1 {
      ValueSnoc(s[1..], acc * 10 + (s[0] as int - '0' as int));
      assert s[..|s| - 1][1..] == s[1..][..|s| - 2];
    }
  }

  lemma {:induction false} ParseIsValue(s: string, acc: nat)
    requires s != "" && AllDigits(s)
    ensures ParseDigits(s, acc) == Some(Value(s, acc))
  {
    assert IsDigit(s[0]);
    if |s| > 1 {
      assert IsDigit(s[1]);
      ParseIsValue(s[1..], acc * 10 + (s[0] as int - '0' as int));
    }
  }

  lemma {:induction false} ValueOfPrint(n: nat)
    ensures Value(Print(n), 0) == n
  {
    if n >= 10 {
      ValueOfPrint(n / 10);
      var s := Print(n);
      assert s[..|s| - 1] == Print(n / 10);
      ValueSnoc(s, 0);
    }
  }

  /** Reading back a printed number, surrounded by one leading space, gives the number. */
  lemma ParseOfPrint(n: nat)
    ensures ParseInt(" " + Print(n)) == Some(n)
    ensures ParseInt(Print(n)) == Some(n)
  {
    var s := Print(n);
    assert IsDigit(s[0]) && IsDigit(s[|s| - 1]);
    assert StripLeft(s) == s && StripRight(s) == s;
    assert (" " + s)[1..] == s;
    assert StripLeft(" " + s) == s;
    ParseIsValue(s, 0);
    ValueOfPrint(n);
  }

  /** Different numbers print differently. */
  lemma PrintInjective(m: nat, n: nat)
    requires Print(m) == Print(n)
    ensures m == n
  {
    ValueOfPrint(m);
    ValueOfPrint(n);
  }

  // ------------------------------------------------------------------
  // Which texts are numbers, and which
  // ------------------------------------------------------------------

  /** Digits, single underscores between them. */
  ghost predicate Grouped(s: string) {
    && s != "" && s[0] != '_' && s[|s| - 1] != '_'
    && (forall i :: 0 <= i < |s| ==> IsDigit(s[i]) || s[i] == '_')
    && forall i :: 0 < i < |s| ==> s[i - 1] != '_' || s[i] != '_'
  }

  ghost function WithoutUnderscores(s: string): (r: string)
    ensures (forall i :: 0 <= i < |s| ==> IsDigit(s[i]) || s[i] == '_') ==> AllDigits(r)
  {
    if s == "" then "" else (if s[0] == '_' then "" else [s[0]]) + WithoutUnderscores(s[1..])
  }

  lemma GroupedTail(s: string)
    requires |s| > 1 && IsDigit(s[0])
    ensures s[1] != '_' ==> (Grouped(s) <==> Grouped(s[1..]))
    ensures s[1] == '_' ==> (Grouped(s) <==> Grouped(s[2..]))
  {
    var r := if s[1] == '_' then s[2..] else s[1..];
    var k := |s| - |r|;
    if Grouped(r) {
      forall i | 0 <= i < |s| ensures IsDigit(s[i]) || s[i] == '_' {
        assert i >= k ==> s[i] == r[i - k];
      }
      forall i | 0 < i < |s| ensures s[i - 1] != '_' || s[i] != '_' {
        assert i >= k ==> s[i] == r[i - k];
        assert i > k ==> s[i - 1] == r[i - 1 - k];
      }
    }
    if Grouped(s) && r != "" {
      assert s[k - 1] != '_' || s[k] != '_';
      assert r[0] == s[k];
      forall i | 0 < i < |r| ensures r[i - 1] != '_' || r[i] != '_' {
        assert s[i + k - 1] != '_' || s[i + k] != '_';
      }
    }
  }

  /** Exactly the grouped texts are read, and their value is that of their digits. */
  lemma {:induction false} ParseDigitsMeaning(s: string, acc: nat)
    ensures ParseDigits(s, acc) == if Grouped(s) then Some(Value(WithoutUnderscores(s), acc)) else None
  {
    if |s| > 1 && IsDigit(s[0]) {
      GroupedTail(s);
      var v := acc * 10 + (s[0] as int - '0' as int);
      ParseDigitsMeaning(if s[1] == '_' then s[2..] else s[1..], v);
      FirstDigit(s, acc, if s[1] == '_' then s[2..] else s[1..]);
    } else if Grouped(s) {
      assert s == [s[0]] && s[1..] == "";
    }
  }

  lemma FirstDigit(s: string, acc: nat, rest: string)
    requires |s| > 1 && IsDigit(s[0]) && rest == if s[1] == '_' then s[2..] else s[1..]
    ensures WithoutUnderscores(s) == [s[0]] + WithoutUnderscores(rest)
    ensures AllDigits(WithoutUnderscores(rest)) ==>
              AllDigits(WithoutUnderscores(s))
              && Value(WithoutUnderscores(s), acc) == Value(WithoutUnderscores(rest), acc * 10 + (s[0] as int - '0' as int))
  {
    assert s[1..] != "";
    assert s[1] == '_' ==> WithoutUnderscores(s[1..]) == WithoutUnderscores(rest) by {
      assert s[1..][1..] == s[2..];
    }
    var w := WithoutUnderscores(s);
    assert w == [s[0]] + WithoutUnderscores(rest);
    assert w[1..] == WithoutUnderscores(rest);
  }

  /** A number is read from a sign, if any, and grouped digits, with white space around them; nothing else is read. */
  ghost predicate Reads(text: string, before: string, sign: string, body: string, after: string) {
    && text == before + sign + body + after && AllSpace(before) && AllSpace(after)
    && sign in ["", "+", "-"] && Grouped(body)
  }

  /** What is read of a stripped text that is a sign, if any, and a body. */
  lemma ReadSigned(sign: string, body: string)
    requires sign in ["", "+", "-"] && (sign == "" ==> body == "" || (body[0] != '+' && body[0] != '-'))
    ensures Signed(sign + body) == match ParseDigits(body, 0)
                                   case Some(v) => Some(if sign == "-" then -(v as int) else v)
                                   case None => None
  {
    var s := sign + body;
    assert sign == "" ==> s == body;
    assert sign != "" ==> s[1..] == body && s[0] == sign[0];
  }

  lemma ParseIntReads(text: string, before: string, sign: string, body: string, after: string)
    requires Reads(text, before, sign, body, after)
    ensures ParseInt(text) == Some(if sign == "-" then -(Value(WithoutUnderscores(body), 0) as int) else Value(WithoutUnderscores(body), 0))
  {
    SignsAreNotSpace();
    assert sign == "" ==> body[0] != '+' && body[0] != '-';
    assert text == before + (sign + body) + after;
    CoreOfRead(sign, body);
    ParseDigitsMeaning(body, 0);
    ReadSigned(sign, body);
    hide IsSpace, IsDigit, Grouped, Strip, ParseDigits, Signed;
    StripOfPadded(before, sign + body, after);
  }

  lemma CoreOfRead(sign: string, body: string)
    requires sign in ["", "+", "-"] && Grouped(body)
    ensures var core := sign + body;
            core != "" && !IsSpace(core[0]) && !IsSpace(core[|core| - 1])
  {
    var core := sign + body;
    assert core[|core| - 1] == body[|body| - 1];
    assert sign == "" ==> core[0] == body[0];
    assert sign != "" ==> core[0] == sign[0];
  }

  lemma SignsAreNotSpace()
    ensures forall c :: IsDigit(c) || c == '-' || c == '+' || c == '_' ==> !IsSpace(c)
  {
  }

  lemma CutSign(s: string) returns (sign: string, body: string)
    ensures s == sign + body && sign in ["", "+", "-"]
    ensures sign == "" ==> body == "" || (body[0] != '+' && body[0] != '-')
  {
    if s != "" && s[0] in ['+', '-'] {
      sign, body := s[..1], s[1..];
      assert sign == [s[0]];
    } else {
      sign, body := "", s;
      assert s == "" + body;
    }
  }

  lemma ParseIntOnlyReads(text: string) returns (before: string, sign: string, body: string, after: string)
    ensures ParseInt(text).Some? ==> Reads(text, before, sign, body, after)
  {
    before, after := StripParts(text);
    hide ParseDigits, Strip, Grouped, IsSpace, Signed;
    sign, body := CutSign(Strip(text));
    ReadSigned(sign, body);
    ParseDigitsMeaning(body, 0);
    assert text == before + sign + body + after;
  }

  // ------------------------------------------------------------------
  // Printed numbers
  // ------------------------------------------------------------------

  lemma {:induction false} ValueAtLeast(s: string, acc: nat)
    requires AllDigits(s)
    ensures Value(s, acc) >= acc
  {
    if s != "" {
      assert IsDigit(s[0]);
      ValueAtLeast(s[1..], acc * 10 + (s[0] as int - '0' as int));
    }
  }

  ghost predicate Numeral(s: string) {
    s != "" && AllDigits(s) && (|s| > 1 ==> s[0] != '0')
  }

  /** A printed number has no leading zero, and every digit text without one is a printed number. */
  lemma {:induction false} PrintIsNumeral(n: nat)
    ensures Numeral(Print(n))
  {
    if n >= 10 {
      PrintIsNumeral(n / 10);
      assert Print(n)[0] == Print(n / 10)[0];
      if |Print(n / 10)| == 1 {
        ValueOfPrint(n / 10);
      }
    }
  }

  lemma {:induction false} NumeralIsGrouped(s: string)
    requires s != "" && AllDigits(s)
    ensures Grouped(s) && WithoutUnderscores(s) == s
  {
    assert IsDigit(s[0]);
    if |s| > 1 {
      NumeralIsGrouped(s[1..]);
    } else {
      assert s[1..] == "";
    }
  }

  lemma {:induction false} PrintOfValue(s: string)
    requires Numeral(s)
    ensures Print(Value(s, 0)) == s
  {
    var front, c := s[..|s| - 1], s[|s| - 1];
    assert IsDigit(c);
    ValueSnoc(s, 0);
    if |s| > 1 {
      assert Numeral(front);
      PrintOfValue(front);
      assert IsDigit(front[0]);
      ValueAtLeast(front[1..], front[0] as int - '0' as int);
      assert s == front + [c];
    } else {
      assert front == "";
    }
  }

  lemma ReadsBare(s: string)
    requires Grouped(s)
    ensures Reads("-" + s, "", "-", s, "")
  {
    hide Grouped;
    assert "-" + s == "" + "-" + s + "";
  }

  /** A printed number is read back with a minus sign in front as well. */
  lemma SignedReads(n: nat)
    ensures ParseInt(Print(n)) == Some(n) && ParseInt("-" + Print(n)) == Some(-(n as int))
  {
    hide *;
    var s := Print(n);
    ParseOfPrint(n);
    NumeralIsGrouped(s);
    ValueOfPrint(n);
    ReadsBare(s);
    ParseIntReads("-" + s, "", "-", s, "");
  }
}
