/** The C string work behind the configuration file: trimming, lines, decimal numbers. */
module ConfigText {
  predicate IsBlank(c: char) { c == ' ' || c == '\t' }
  predicate IsTail(c: char) { c == ' ' || c == '\t' || c == '\n' || c == '\r' }

  function SkipBlanks(s: string): (r: string)
    ensures r == "" || !IsBlank(r[0])
    ensures |r| <= |s| && r == s[|s| - |r|..]
  {
    if s != "" && IsBlank(s[0]) then SkipBlanks(s[1..]) else s
  }

  /** The trailing trim stops at the first character: a lone newline stays. */
  function DropTail(s: string): (r: string)
    ensures r <= s
    ensures |r| > 1 ==> !IsTail(r[|r| - 1])
  {
    if |s| > 1 && IsTail(s[|s| - 1]) then DropTail(s[..|s| - 1]) else s
  }

  function Trim(s: string): string { DropTail(SkipBlanks(s)) }

  /** The C string in a buffer: everything before the first NUL. */
  function CString(buffer: seq<char>): (s: string)
    ensures s <= buffer && '\0' !in s
    ensures |s| < |buffer| ==> buffer[|s|] == '\0'
  {
    if buffer == [] || buffer[0] == '\0' then [] else [buffer[0]] + CString(buffer[1..])
  }

  lemma {:induction false} CStringIs(buffer: seq<char>, s: string)
    requires |s| < |buffer| && buffer[..|s|] == s && buffer[|s|] == '\0' && '\0' !in s
    ensures CString(buffer) == s
  {
    if s != "" {
      assert buffer[1..][..|s| - 1] == s[1..];
      CStringIs(buffer[1..], s[1..]);
    }
  }

  lemma SkipOne(s: string)
    requires s != "" && IsBlank(s[0])
    ensures SkipBlanks(s) == SkipBlanks(s[1..])
  {
  }

  lemma {:induction false} SkipMore(s: string, k: nat)
    requires k <= |s| && forall i :: 0 <= i < k ==> IsBlank(s[i])
    ensures SkipBlanks(s) == SkipBlanks(s[k..])
  {
    hide IsBlank, SkipBlanks;
    if k > 0 {
      SkipOne(s);
      SkipMore(s[1..], k - 1);
      assert s[1..][k - 1..] == s[k..];
    } else {
      assert s[0..] == s;
    }
  }

  lemma {:induction false} DropMore(s: string, k: nat)
    requires 0 < k <= |s| && forall i :: k <= i < |s| ==> IsTail(s[i])
    ensures DropTail(s) == DropTail(s[..k])
    decreases |s|
  {
    if k < |s| {
      DropMore(s[..|s| - 1], k);
      assert s[..|s| - 1][..k] == s[..k];
    } else {
      assert s[..k] == s;
    }
  }

  /** trim() on a NUL-terminated buffer, in place. */
  method TrimInPlace(str: array<char>)
    requires '\0' in str[..]
    modifies str
    ensures '\0' in str[..] && CString(str[..]) == Trim(old(CString(str[..])))
  {
    hide CString, SkipBlanks, DropTail, Trim, IsTail, IsBlank;
    ghost var s := CString(str[..]);
    FindsNul(str[..]);
    assert forall k :: 0 <= k < |s| ==> s[k] == str[k] && s[k] in s;
    var start := 0;
    while str[start] != '\0' && IsBlank(str[start])
      invariant start <= |s| && forall i :: 0 <= i < start ==> IsBlank(s[i])
      decreases |s| - start
    {
      start := start + 1;
    }
    var length := |CString(str[start..])|;
    ghost var body := s[start..];
    RestOfString(str[..], s, start);
    TrimStarts(s, start);
    var end := start + length - 1;
    while end > start && IsTail(str[end])
      invariant start - 1 <= end < start + |body| && (body != "" ==> start <= end)
      invariant forall i :: end + 1 - start <= i < |body| ==> IsTail(body[i])
      decreases end
    {
      assert body[end - start] == str[end];
      end := end - 1;
    }
    assert end > start ==> body[end - start] == str[end];
    DropIs(body, end + 1 - start);
    assert str[start..end + 1] == body[..end + 1 - start];
    MoveDown(str, start, end);
  }

  /** What the leading trim leaves to do. */
  lemma TrimStarts(s: string, start: nat)
    requires start <= |s| && forall i :: 0 <= i < start ==> IsBlank(s[i])
    requires start < |s| ==> !IsBlank(s[start])
    ensures Trim(s) == DropTail(s[start..])
  {
    SkipMore(s, start);
    NoBlanks(s[start..]);
  }

  /** The end of trim(): terminate after `end`, and move the kept part to the front. */
  method MoveDown(str: array<char>, start: nat, end: int)
    requires start <= end + 1 < str.Length && '\0' !in str[start..end + 1]
    modifies str
    ensures '\0' in str[..] && CString(str[..]) == old(str[start..end + 1])
  {
    ghost var kept := str[start..end + 1];
    str[end + 1] := '\0';
    if start != 0 {
      forall i | 0 <= i <= end + 1 - start { str[i] := str[start + i]; }
    }
    assert str[..|kept|] == kept;
    CStringIs(str[..], kept);
    assert str[..][|kept|] == '\0';
  }

  lemma RestOfString(buffer: seq<char>, s: string, start: nat)
    requires |s| < |buffer| && s == CString(buffer) && start <= |s|
    ensures CString(buffer[start..]) == s[start..]
  {
    CStringIs(buffer[start..], s[start..]);
  }

  lemma {:induction false} FindsNul(buffer: seq<char>)
    requires '\0' in buffer
    ensures |CString(buffer)| < |buffer|
  {
    if buffer[0] != '\0' {
      assert buffer == [buffer[0]] + buffer[1..];
      FindsNul(buffer[1..]);
    }
  }

  lemma DropIs(body: string, k: nat)
    requires k <= |body| && (body != "" ==> k > 0)
    requires forall i :: k <= i < |body| ==> IsTail(body[i])
    requires k <= 1 || !IsTail(body[k - 1])
    ensures DropTail(body) == body[..k]
  {
    hide DropTail;
    if body != "" { DropMore(body, k); }
    Settled(body[..k]);
    assert body == "" ==> body[..k] == body;
  }

  lemma NoBlanks(s: string)
    requires s == "" || !IsBlank(s[0])
    ensures SkipBlanks(s) == s
  {
  }

  /** Nothing is dropped from a single character or behind a character that is not trailing space. */
  lemma Settled(s: string)
    requires |s| <= 1 || !IsTail(s[|s| - 1])
    ensures DropTail(s) == s
  {
  }

  /** Where fgets() into a 256-byte buffer stops: after a newline, at 255 characters, or at the end. */
  function LineEnd(text: string, i: nat): (end: nat)
    requires i <= |text| && i <= 255
    ensures i <= end <= |text| && (i < |text| && i < 255 ==> i < end)
    decreases |text| - i
  {
    if i == |text| || i == 255 then i
    else if text[i] == '\n' then i + 1
    else LineEnd(text, i + 1)
  }

  /** A line that fits is read whole. */
  lemma {:induction false} LineIsRead(line: string, rest: string, i: nat)
    requires '\n' !in line && |line| < 255 && i <= |line|
    ensures LineEnd(line + "\n" + rest, i) == |line| + 1
    decreases |line| - i
  {
    if i < |line| {
      assert line[i] in line;
      LineIsRead(line, rest, i + 1);
    }
  }

  predicate IsDigit(c: char) { '0' <= c <= '9' }

  /** Leading decimal digits, accumulated. */
  function Digits(s: string, acc: nat): nat {
    if s == "" || !IsDigit(s[0]) then acc else Digits(s[1..], acc * 10 + (s[0] as int - '0' as int))
  }

  predicate IsSpace(c: char) { c == ' ' || '\t' <= c <= '\r' }

  /** atoi, without the overflow that C leaves undefined. */
  function Atoi(s: string): int {
    if s != "" && IsSpace(s[0]) then Atoi(s[1..])
    else if s != "" && s[0] == '-' then 0 - Digits(s[1..], 0)
    else if s != "" && s[0] == '+' then Digits(s[1..], 0)
    else Digits(s, 0)
  }

  function DigitChar(d: nat): (c: char)
    requires d < 10
    ensures IsDigit(c) && c as int - '0' as int == d
  {
    ('0' as int + d) as char
  }

  /** printf("%u"). */
  function Decimal(n: nat): (s: string)
    ensures s != "" && forall c :: c in s ==> IsDigit(c)
  {
    if n < 10 then [DigitChar(n)] else Decimal(n / 10) + [DigitChar(n % 10)]
  }

  /** printf("%d"). */
  function Signed(i: int): string { if i < 0 then "-" + Decimal(-i) else Decimal(i) }

  lemma {:induction false} DigitsConcat(a: string, b: string, acc: nat)
    requires forall c :: c in a ==> IsDigit(c)
    ensures Digits(a + b, acc) == Digits(b, Digits(a, acc))
  {
    if a == "" {
      assert a + b == b;
    } else {
      assert a[0] in a && (a + b)[1..] == a[1..] + b;
      DigitsConcat(a[1..], b, acc * 10 + (a[0] as int - '0' as int));
    }
  }

  lemma {:induction false} DecimalRoundTrip(n: nat)
    ensures Digits(Decimal(n), 0) == n
  {
    if n >= 10 {
      DecimalRoundTrip(n / 10);
      DigitsConcat(Decimal(n / 10), [DigitChar(n % 10)], 0);
      assert Digits([DigitChar(n % 10)], n / 10) == Digits("", n);
    } else {
      assert Digits([DigitChar(n)], 0) == Digits("", n);
    }
  }

  /** Printing an int and reading it back gives the int. */
  lemma SignedRoundTrip(i: int)
    ensures Atoi(Signed(i)) == i
  {
    var d := Decimal(if i < 0 then -i else i);
    DecimalRoundTrip(if i < 0 then -i else i);
    assert d[0] in d;
    if i < 0 { assert Signed(i)[1..] == d; }
  }

  /** Printed in 32 bits, a number takes at most ten digits. */
  lemma {:induction false} DecimalLength(n: nat, bound: nat)
    requires n < Power10(bound) && bound > 0
    ensures |Decimal(n)| <= bound
    decreases bound
  {
    if n >= 10 { DecimalLength(n / 10, bound - 1); }
  }

  function Power10(n: nat): nat { if n == 0 then 1 else 10 * Power10(n - 1) }

  /** A string that survives being written after "key = " and read back. */
  predicate Clean(s: string) {
    s != "" ==> !IsBlank(s[0]) && !IsTail(s[|s| - 1])
  }
}
