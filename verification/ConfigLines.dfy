/** What the lines of a file mean, told from their characters (src/config.c:120-141, 162-195). */
module ConfigLines {
  import opened ConfigText
  import opened Config
  import opened ConfigSave

  predicate AllBlank(s: string) { forall i :: 0 <= i < |s| ==> s[i] == ' ' || s[i] == '\t' }

  predicate AllTail(s: string) { forall i :: 0 <= i < |s| ==> s[i] in {' ', '\t', '\n', '\r'} }

  /** A string that has nothing to trim: not empty, no blank first, no blank or line end last. */
  predicate Core(s: string) {
    s != "" && s[0] != ' ' && s[0] != '\t' && s[|s| - 1] !in {' ', '\t', '\n', '\r'}
  }

  /** Trimming takes blanks and tabs off the front, and these and line ends off the back. */
  lemma TrimMeans(front: string, core: string, back: string)
    requires AllBlank(front) && Core(core) && AllTail(back)
    ensures Trim(front + core + back) == core
  {
    hide SkipBlanks, DropTail;
    assert front + core + back == front + (core + back);
    FrontSkipped(front, core + back);
    DropBack(core, back);
  }

  lemma FrontSkipped(front: string, rest: string)
    requires AllBlank(front) && (rest == "" || (rest[0] != ' ' && rest[0] != '\t'))
    ensures SkipBlanks(front + rest) == rest
  {
    hide SkipBlanks;
    assert forall i :: 0 <= i < |front| ==> (front + rest)[i] == front[i];
    SkipMore(front + rest, |front|);
    assert (front + rest)[|front|..] == rest;
    NoBlanks(rest);
  }

  lemma DropBack(core: string, back: string)
    requires Core(core) && AllTail(back)
    ensures DropTail(core + back) == core
  {
    hide DropTail;
    var s := core + back;
    forall i | |core| <= i < |s| ensures IsTail(s[i]) { assert s[i] == back[i - |core|]; }
    DropIs(s, |core|);
    assert s[..|core|] == core;
  }

  /** A line that starts with '#' or ';' behind blanks is skipped. */
  lemma CommentLine(front: string, mark: char, rest: string)
    requires AllBlank(front) && mark in {'#', ';'}
    ensures ParseLine(front + [mark] + rest) == Skipped
  {
    FrontGone(front, mark, rest);
  }

  /** What the trimming of a line leaves starts with its first character that is not blank. */
  lemma FrontGone(front: string, c: char, rest: string)
    requires AllBlank(front) && c != ' ' && c != '\t'
    ensures var t := Trim(front + [c] + rest);
            t != "" && t[0] == c && t <= [c] + rest
  {
    hide SkipBlanks, DropTail;
    assert front + [c] + rest == front + ([c] + rest);
    FrontSkipped(front, [c] + rest);
    FirstKept([c] + rest);
  }

  lemma {:induction false} FirstKept(s: string)
    requires s != ""
    ensures DropTail(s) != "" && DropTail(s)[0] == s[0]
  {
    if |s| > 1 && IsTail(s[|s| - 1]) { FirstKept(s[..|s| - 1]); }
  }

  /** "[name]", behind blanks and before anything, starts the section of that name, cut to 63 characters. */
  lemma SectionLine(front: string, name: string, rest: string)
    requires AllBlank(front) && ']' !in name
    ensures ParseLine(front + "[" + name + "]" + rest) == Section(if |name| <= 63 then name else name[..63])
  {
    hide Trim, IndexOf;
    var line := front + "[" + name + "]" + rest;
    assert line == front + ['['] + (name + "]" + rest);
    FrontGone(front, '[', name + "]" + rest);
    var t := Trim(line);
    BracketKept(front, name, rest);
    var after := t[|name| + 2..];
    assert t == ("[" + name) + [']'] + after;
    IndexOfFirst("[" + name, ']', after);
    assert t[1..|name| + 1] == name;
  }

  lemma BracketKept(front: string, name: string, rest: string)
    requires AllBlank(front)
    ensures "[" + name + "]" <= Trim(front + "[" + name + "]" + rest)
  {
    hide SkipBlanks, DropTail;
    var kept := "[" + name + "]";
    assert front + "[" + name + "]" + rest == front + (kept + rest);
    FrontSkipped(front, kept + rest);
    PrefixKept(kept, rest);
  }

  lemma {:induction false} PrefixKept(kept: string, rest: string)
    requires kept != "" && !IsTail(kept[|kept| - 1])
    ensures kept <= DropTail(kept + rest)
    decreases |rest|
  {
    var s := kept + rest;
    if rest != "" && IsTail(s[|s| - 1]) {
      assert s[..|s| - 1] == kept + rest[..|rest| - 1];
      PrefixKept(kept, rest[..|rest| - 1]);
    }
  }

  /** "key = value" with any blanks around both, the key before the first '=', is that entry. */
  lemma EntryLine(front: string, key: string, left: string, right: string, value: string, back: string)
    requires AllBlank(front) && AllTail(left) && AllBlank(right) && AllTail(back)
    requires Core(key) && '=' !in key && key[0] !in {'#', ';', '['} && Core(value)
    ensures ParseLine(front + key + left + "=" + right + value + back) == Entry(key, value)
  {
    hide Trim, IndexOf, ParseTrimmed;
    var t := key + left + "=" + right + value;
    assert front + key + left + "=" + right + value + back == front + t + back;
    assert Core(t);
    TrimMeans(front, t, back);
    SplitsAt(t, key, left, right + value);
    TrimMeans(right, value, "");
    assert right + value + "" == right + value;
  }

  /** With nothing behind the '=' the value is empty. */
  lemma EmptyEntryLine(front: string, key: string, left: string, back: string)
    requires AllBlank(front) && AllTail(left) && AllTail(back)
    requires Core(key) && '=' !in key && key[0] !in {'#', ';', '['}
    ensures ParseLine(front + key + left + "=" + back) == Entry(key, "")
  {
    hide Trim, IndexOf, ParseTrimmed;
    var t := key + left + "=";
    assert Core(t);
    TrimMeans(front, t, back);
    assert t == key + left + "=" + "" && front + key + left + "=" + back == front + t + back;
    SplitsAt(t, key, left, "");
    NothingToTrim();
  }

  lemma NothingToTrim()
    ensures Trim("") == ""
  {
  }

  lemma SplitsAt(t: string, key: string, left: string, right: string)
    requires t == key + left + "=" + right && AllTail(left)
    requires Core(key) && '=' !in key && key[0] !in {'#', ';', '['}
    ensures ParseTrimmed(t) == Entry(key, Trim(right))
  {
    hide Trim, IndexOf;
    var head := key + left;
    assert t == head + ['='] + right;
    assert '=' !in head by { assert forall i :: 0 <= i < |left| ==> left[i] != '='; }
    IndexOfFirst(head, '=', right);
    assert t[0] == key[0] && t[..|head|] == head && t[|head| + 1..] == right;
    TrimMeans("", key, left);
    assert "" + key + left == head;
  }

  /** A line without '=' that is no section header is skipped. */
  lemma OtherLine(line: string)
    requires '=' !in line && (forall i :: 0 <= i < |line| ==> line[i] != '[')
    ensures ParseLine(line) == Skipped
  {
    hide SkipBlanks, DropTail, IndexOf;
    var skipped := SkipBlanks(line);
    var t := DropTail(skipped);
    assert forall i :: 0 <= i < |t| ==> t[i] == line[|line| - |skipped| + i];
    if t != "" { assert t[0] != '['; }
    assert '=' !in t by { assert forall i :: 0 <= i < |t| ==> t[i] in line; }
  }

  predicate AllSpace(s: string) {
    forall i :: 0 <= i < |s| ==> s[i] in {' ', '\t', '\n', 11 as char, 12 as char, '\r'}
  }

  /** A number with leading white space, a sign, leading zeros and anything but a digit behind it. */
  lemma AtoiMeans(front: string, zeros: string, n: nat, back: string)
    requires AllSpace(front) && (forall i :: 0 <= i < |zeros| ==> zeros[i] == '0')
    requires back == "" || !('0' <= back[0] <= '9')
    ensures var number := zeros + Decimal(n) + back;
            && Atoi(front + number) == n
            && Atoi(front + ("+" + number)) == n
            && Atoi(front + ("-" + number)) == 0 - n
  {
    hide Atoi, Digits, Decimal;
    var number := zeros + Decimal(n) + back;
    SignedNumber(zeros, n, back);
    SpacesSkipped(front, number);
    SpacesSkipped(front, "+" + number);
    SpacesSkipped(front, "-" + number);
  }

  lemma {:induction false} SpacesSkipped(front: string, rest: string)
    requires AllSpace(front)
    ensures Atoi(front + rest) == Atoi(rest)
  {
    if front == "" {
      assert front + rest == rest;
    } else {
      assert (front + rest)[1..] == front[1..] + rest;
      SpacesSkipped(front[1..], rest);
    }
  }

  lemma SignedNumber(zeros: string, n: nat, back: string)
    requires forall i :: 0 <= i < |zeros| ==> zeros[i] == '0'
    requires back == "" || !('0' <= back[0] <= '9')
    ensures var number := zeros + Decimal(n) + back;
            Atoi(number) == n && Atoi("+" + number) == n && Atoi("-" + number) == 0 - n
  {
    hide Decimal;
    var number := zeros + Decimal(n) + back;
    UnsignedNumber(zeros, n, back);
    assert ("+" + number)[1..] == number && ("-" + number)[1..] == number;
    assert number[0] == if zeros != "" then zeros[0] else Decimal(n)[0];
    assert Decimal(n)[0] in Decimal(n);
  }

  lemma UnsignedNumber(zeros: string, n: nat, back: string)
    requires forall i :: 0 <= i < |zeros| ==> zeros[i] == '0'
    requires back == "" || !('0' <= back[0] <= '9')
    ensures Digits(zeros + Decimal(n) + back, 0) == n
  {
    hide Decimal, Digits;
    ZerosAre(zeros);
    DigitsConcat(zeros, Decimal(n) + back, 0);
    DigitsConcat(Decimal(n), back, 0);
    DecimalRoundTrip(n);
    NoDigits(back, n);
    assert zeros + Decimal(n) + back == zeros + (Decimal(n) + back);
  }

  lemma {:induction false} ZerosAre(zeros: string)
    requires forall i :: 0 <= i < |zeros| ==> zeros[i] == '0'
    ensures Digits(zeros, 0) == 0 && forall c :: c in zeros ==> IsDigit(c)
  {
    if zeros != "" { ZerosAre(zeros[1..]); }
  }

  lemma NoDigits(back: string, n: nat)
    requires back == "" || !('0' <= back[0] <= '9')
    ensures Digits(back, n) == n
  {
  }

  predicate StartsNoNumber(c: char) {
    c !in {'+', '-', ' '} && !('0' <= c <= '9') && !('\t' <= c <= '\r')
  }

  /** Text that does not begin with a number reads as 0. */
  lemma NoNumber(front: string, rest: string)
    requires AllSpace(front) && (rest == "" || StartsNoNumber(rest[0]))
    ensures Atoi(front + rest) == 0
  {
    hide Atoi;
    SpacesSkipped(front, rest);
    NotANumber(rest);
  }

  lemma NotANumber(rest: string)
    requires rest == "" || StartsNoNumber(rest[0])
    ensures Atoi(rest) == 0
  {
  }
}
