/** The pieces of Go's strings, strconv and fmt packages that the services lean on. */
module Text {

  datatype Option<+T> = None | Some(value: T)

  /** strings.Split with a one-character separator. */
  function Split(s: string, sep: char): (parts: seq<string>)
    ensures |parts| >= 1
  {
    if s == [] then [[]]
    else
      var rest := Split(s[1..], sep);
      if s[0] == sep then [[]] + rest else Extend(s[0], rest)
  }

  /** The parts with one more character at the front. */
  function Extend(c: char, parts: seq<string>): (r: seq<string>)
    requires |parts| >= 1
    ensures |r| == |parts|
  {
    [[c] + parts[0]] + parts[1..]
  }

  /** Splitting takes a text apart at any one of its separators. */
  lemma {:induction false} SplitAt(a: string, sep: char, b: string)
    ensures Split(a + [sep] + b, sep) == Split(a, sep) + Split(b, sep)
  {
    if a == [] {
      assert a + [sep] + b == [sep] + b;
    } else {
      SplitAt(a[1..], sep, b);
      var whole, first, second := a + [sep] + b, Split(a[1..], sep), Split(b, sep);
      assert whole[0] == a[0] && whole[1..] == a[1..] + [sep] + b;
      UnfoldSplit(whole, sep);
      UnfoldSplit(a, sep);
      AppendFirst(a[0], first, second);
      hide *;
    }
  }

  lemma {:induction false} AppendFirst(c: char, first: seq<string>, second: seq<string>)
    requires |first| >= 1
    ensures Extend(c, first) + second == Extend(c, first + second)
    ensures [[]] + first + second == [[]] + (first + second)
  {
  }

  lemma {:induction false} UnfoldSplit(s: string, sep: char)
    requires s != []
    ensures Split(s, sep) == if s[0] == sep then [[]] + Split(s[1..], sep) else Extend(s[0], Split(s[1..], sep))
  {
  }

  lemma {:induction false} SplitWhole(a: string, sep: char)
    requires sep !in a
    ensures Split(a, sep) == [a]
  {
    if a != [] {
      SplitWhole(a[1..], sep);
      assert [a[0]] + a[1..] == a;
    }
  }

  lemma {:induction false} SplitMany(a: string, sep: char)
    requires sep in a
    ensures |Split(a, sep)| >= 2
  {
    if a[0] != sep {
      SplitMany(a[1..], sep);
    }
  }

  // ---------- Decimal text ----------

  function Digit(d: nat): (c: char)
    requires d < 10
    ensures '0' <= c <= '9'
  {
    '0' + d as char
  }

  function Digits(n: nat): (s: string)
    ensures |s| >= 1
  {
    if n < 10 then [Digit(n)] else Digits(n / 10) + [Digit(n % 10)]
  }

  /** fmt.Sprint of an integer. */
  function Sprint(i: int): string {
    if i < 0 then "-" + Digits(-i) else Digits(i)
  }

  predicate AllDigits(s: string) {
    forall i :: 0 <= i < |s| ==> '0' <= s[i] <= '9'
  }

  function ValueOf(s: string): nat
    requires AllDigits(s)
  {
    if s == [] then 0 else ValueOf(s[..|s| - 1]) * 10 + (s[|s| - 1] - '0') as nat
  }

  /** strconv.Atoi: an optional sign, then at least one digit, within 64 bits. */
  function Atoi(s: string): Option<int> {
    var body := if s != [] && (s[0] == '-' || s[0] == '+') then s[1..] else s;
    if body == [] || !AllDigits(body) then None
    else
      var i: int := if s[0] == '-' then 0 - ValueOf(body) else ValueOf(body);
      if -0x8000_0000_0000_0000 <= i < 0x8000_0000_0000_0000 then Some(i) else None
  }

  /** Go's conversion int32(i). */
  function Int32(i: int): (r: int)
    ensures -0x8000_0000 <= r < 0x8000_0000
    ensures -0x8000_0000 <= i < 0x8000_0000 ==> r == i
  {
    (i + 0x8000_0000) % 0x1_0000_0000 - 0x8000_0000
  }

  lemma {:induction false} DigitsRead(n: nat)
    ensures AllDigits(Digits(n)) && ValueOf(Digits(n)) == n
  {
    if n < 10 {
      assert Digits(n)[..0] == [];
    } else {
      DigitsRead(n / 10);
      assert Digits(n)[..|Digits(n)| - 1] == Digits(n / 10);
    }
  }

  /** A sign in front decides the sign; without one the number is not negative. Numbers beyond 64 bits are
      refused. */
  lemma {:induction false} AtoiSigned(body: string, n: int)
    requires body != [] && AllDigits(body) && ValueOf(body) == n
    ensures Atoi(body) == Atoi("+" + body) == if n < 0x8000_0000_0000_0000 then Some(n) else None
    ensures Atoi("-" + body) == if n <= 0x8000_0000_0000_0000 then Some(-n) else None
  {
    assert '0' <= body[0] <= '9';
    assert ("-" + body)[1..] == body && ("+" + body)[1..] == body;
    hide AllDigits, ValueOf;
  }

  /** Printed integers read back. */
  lemma {:induction false} AtoiSprint(i: int)
    requires -0x8000_0000_0000_0000 <= i < 0x8000_0000_0000_0000
    ensures Atoi(Sprint(i)) == Some(i)
  {
    var n := if i < 0 then -i else i;
    DigitsRead(n);
    hide Digits, ValueOf, AllDigits, Atoi;
    AtoiSigned(Digits(n), n);
  }

  /** Printed integers have no leading zero. */
  lemma {:induction false} NoLeadingZero(n: nat)
    requires n > 0
    ensures Digits(n)[0] != '0'
  {
    if n >= 10 {
      NoLeadingZero(n / 10);
    }
  }

  lemma {:induction false} SprintHasNo(i: int, c: char)
    requires !('0' <= c <= '9') && c != '-'
    ensures c !in Sprint(i)
  {
    DigitsRead(if i < 0 then -i else i);
  }
}
