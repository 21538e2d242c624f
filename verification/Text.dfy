/** String helpers with the meaning of Go's `strings` package.  A `char` stands for one byte. */
module Text {

  predicate HasPrefix(s: string, p: string) {
    |p| <= |s| && s[..|p|] == p
  }

  predicate HasSuffix(s: string, p: string) {
    |p| <= |s| && s[|s| - |p|..] == p
  }

  predicate IsSpace(c: char) {
    c == ' ' || 9 <= c as int <= 13
  }

  /** How many white-space characters `s` starts with. */
  function Leading(s: string): (k: nat)
    ensures k <= |s| && (k < |s| ==> !IsSpace(s[k]))
    ensures forall j :: 0 <= j < k ==> IsSpace(s[j])
  {
    if s != [] && IsSpace(s[0]) then 1 + Leading(s[1..]) else 0
  }

  /** The length of `s` without its trailing white space. */
  function Kept(s: string): (k: nat)
    ensures k <= |s| && (k > 0 ==> !IsSpace(s[k - 1]))
    ensures forall j :: k <= j < |s| ==> IsSpace(s[j])
  {
    if s != [] && IsSpace(s[|s| - 1]) then Kept(s[..|s| - 1]) else |s|
  }

  function TrimSpace(s: string): string {
    var t := s[Leading(s)..];
    t[..Kept(t)]
  }

  /** Neither end of `s` is white space. */
  predicate Trimmed(s: string) {
    s == [] || (!IsSpace(s[0]) && !IsSpace(s[|s| - 1]))
  }

  /** Trimming leaves a trimmed string made of characters of `s`, and is empty just for blank input. */
  lemma TrimSpaceCuts(s: string)
    ensures Trimmed(TrimSpace(s))
    ensures forall c :: c in TrimSpace(s) ==> c in s
    ensures TrimSpace(s) == [] <==> forall j :: 0 <= j < |s| ==> IsSpace(s[j])
  {
    var t := s[Leading(s)..];
    assert forall j :: 0 <= j < |t| ==> t[j] == s[j + Leading(s)];
    if t != [] {
      assert t[0] == s[Leading(s)];
    }
  }

  /** A string whose ends are not white space is left alone. */
  lemma TrimTrimmed(s: string)
    requires Trimmed(s)
    ensures TrimSpace(s) == s
  {
  }

  /** `strings.Split(s, string(sep))`. */
  function Split(s: string, sep: char): (r: seq<string>)
    ensures |r| > 0
  {
    if s == [] then [[]]
    else
      var rest := Split(s[1..], sep);
      if s[0] == sep then [[]] + rest else [[s[0]] + rest[0]] + rest[1..]
  }

  /** `strings.Join(parts, string(sep))`. */
  function Join(parts: seq<string>, sep: char): string {
    if parts == [] then []
    else if |parts| == 1 then parts[0]
    else parts[0] + [sep] + Join(parts[1..], sep)
  }

  lemma {:induction false} SplitFree(s: string, sep: char)
    ensures forall p :: p in Split(s, sep) ==> sep !in p
  {
    if s != [] { SplitFree(s[1..], sep); }
  }

  lemma {:induction false} JoinSplit(s: string, sep: char)
    ensures Join(Split(s, sep), sep) == s
  {
    if s != [] {
      var rest := Split(s[1..], sep);
      JoinSplit(s[1..], sep);
      var all := Split(s, sep);
      if s[0] == sep {
        assert all[1..] == rest;
      } else {
        assert all[1..] == rest[1..];
      }
    }
  }

  lemma {:induction false} SplitOne(s: string, sep: char)
    requires sep !in s
    ensures Split(s, sep) == [s]
  {
    if s != [] { SplitOne(s[1..], sep); assert [s[0]] + s[1..] == s; }
  }

  /** Splitting distributes over an explicit separator. */
  lemma {:induction false} SplitAt(a: string, b: string, sep: char)
    requires sep !in a
    ensures Split(a + [sep] + b, sep) == [a] + Split(b, sep)
  {
    var s := a + [sep] + b;
    if a == [] {
      assert s[1..] == b;
    } else {
      SplitAt(a[1..], b, sep);
      assert s[1..] == a[1..] + [sep] + b;
      assert [a[0]] + a[1..] == a;
      assert s[0] == a[0] && a[0] in a;
      assert ([a[1..]] + Split(b, sep))[1..] == Split(b, sep);
    }
  }

  /** One more character in front of the first part. */
  function Push(c: char, parts: seq<string>, sep: char): seq<string>
    requires parts != []
  {
    if c == sep then [[]] + parts else [[c] + parts[0]] + parts[1..]
  }

  lemma PushConcat(c: char, head: seq<string>, tail: seq<string>, sep: char)
    requires head != []
    ensures Push(c, head + tail, sep) == Push(c, head, sep) + tail
  {
    if c == sep {
      assert [[]] + (head + tail) == [[]] + head + tail;
    } else {
      assert (head + tail)[0] == head[0] && (head + tail)[1..] == head[1..] + tail;
    }
  }

  /** Splitting distributes over any separator. */
  lemma {:induction false} SplitConcat(a: string, b: string, sep: char)
    ensures Split(a + [sep] + b, sep) == Split(a, sep) + Split(b, sep)
  {
    var s := a + [sep] + b;
    if a == [] {
      assert s[1..] == b;
    } else {
      SplitConcat(a[1..], b, sep);
      assert s[1..] == a[1..] + [sep] + b && s[0] == a[0];
      assert Split(s, sep) == Push(a[0], Split(s[1..], sep), sep);
      assert Split(a, sep) == Push(a[0], Split(a[1..], sep), sep);
      PushConcat(a[0], Split(a[1..], sep), Split(b, sep), sep);
    }
  }

  /** Separator-free parts survive a join and a split. */
  lemma {:induction false} SplitJoin(parts: seq<string>, sep: char)
    requires parts != [] && forall p :: p in parts ==> sep !in p
    ensures Split(Join(parts, sep), sep) == parts
  {
    if |parts| == 1 {
      SplitOne(parts[0], sep);
    } else {
      SplitJoin(parts[1..], sep);
      SplitAt(parts[0], Join(parts[1..], sep), sep);
    }
  }

  /** Byte-wise string order, as Go's `<` and `sort.Strings`. */
  predicate Leq(a: string, b: string) {
    a == [] || (b != [] && (a[0] < b[0] || (a[0] == b[0] && Leq(a[1..], b[1..]))))
  }

  predicate Less(a: string, b: string) {
    a != b && Leq(a, b)
  }

  lemma {:induction false} LeqTotal(a: string, b: string)
    ensures Leq(a, b) || Leq(b, a)
    ensures Leq(a, b) && Leq(b, a) ==> a == b
  {
    if a != [] && b != [] {
      LeqTotal(a[1..], b[1..]);
      assert a == [a[0]] + a[1..] && b == [b[0]] + b[1..];
    }
  }

  lemma {:induction false} LeqTransitive(a: string, b: string, c: string)
    requires Leq(a, b) && Leq(b, c)
    ensures Leq(a, c)
  {
    if a != [] && a[0] == b[0] == c[0] { LeqTransitive(a[1..], b[1..], c[1..]); }
  }

  function Digits(n: nat): string {
    if n < 10 then [('0' as int + n) as char] else Digits(n / 10) + [('0' as int + n % 10) as char]
  }

  /** fmt.Sprintf("%d", n). */
  function Decimal(n: int): (s: string)
    ensures s != ""
  {
    if n < 0 then "-" + Digits(-n) else Digits(n)
  }

  function LowerChar(c: char): char {
    if 'A' <= c <= 'Z' then ((c as int) + 32) as char else c
  }

  /** strings.ToLower, on ASCII. */
  function Lower(s: string): string {
    seq(|s|, i requires 0 <= i < |s| => LowerChar(s[i]))
  }

  /** The number that a text of decimal digits stands for. */
  function Value(digits: string): int {
    if digits == [] then 0 else 10 * Value(digits[..|digits| - 1]) + (digits[|digits| - 1] as int - '0' as int)
  }

  predicate IsDigits(s: string) {
    s != [] && (forall c :: c in s ==> '0' <= c <= '9') && (|s| > 1 ==> s[0] != '0')
  }

  lemma {:induction false} DigitsRead(n: nat)
    ensures IsDigits(Digits(n)) && Value(Digits(n)) == n && (n > 0 ==> Digits(n)[0] != '0')
  {
    var s := Digits(n);
    if n >= 10 {
      DigitsRead(n / 10);
      assert s[..|s| - 1] == Digits(n / 10);
    } else {
      assert s[..0] == [];
    }
  }

  /** A number is written without leading zeros, and reads back as itself. */
  lemma DecimalReads(n: int)
    ensures n >= 0 ==> IsDigits(Decimal(n)) && Value(Decimal(n)) == n
    ensures n < 0 ==> Decimal(n)[0] == '-' && IsDigits(Decimal(n)[1..]) && Value(Decimal(n)[1..]) == -n
  {
    DigitsRead(if n < 0 then -n else n);
    if n < 0 { assert Decimal(n)[1..] == Digits(-n); }
  }
}
