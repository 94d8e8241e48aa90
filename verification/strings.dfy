/** The few JavaScript string operations the authentication code relies on. */
module Strings {
  import opened Wrappers

  /** `s.indexOf(c)`: the position of the first occurrence of `c`, or None. */
  function IndexOf(s: string, c: char): (r: Option<nat>)
    ensures r.Some? ==> r.value < |s| && s[r.value] == c && c !in s[..r.value]
    ensures r.None? ==> c !in s
    decreases |s|
  {
    if s == [] then None
    else if s[0] == c then Some(0)
    else match IndexOf(s[1..], c)
      case None => None
      case Some(i) => Some(i + 1)
  }

  /** `s.startsWith(prefix)`. */
  predicate StartsWith(s: string, prefix: string) {
    |prefix| <= |s| && s[..|prefix|] == prefix
  }

  /**
   * `s.split(sep)[1]`: the text between the first and the second
   * separator (or the end of `s`); None, JavaScript's `undefined`, when `s`
   * holds no separator at all.
   */
  function SecondField(s: string, sep: char): (r: Option<string>)
    ensures r.Some? <==> sep in s
    ensures r.Some? ==> sep !in r.value
  {
    match IndexOf(s, sep)
    case None => None
    case Some(i) =>
      var rest := s[i + 1..];
      match IndexOf(rest, sep)
      case None => Some(rest)
      case Some(j) => Some(rest[..j])
  }

  /** The first occurrence of a character is the one right after a prefix free of it. */
  lemma IndexOfAfter(head: string, c: char, tail: string)
    requires c !in head
    ensures IndexOf(head + [c] + tail, c) == Some(|head|)
  {
    var s := head + [c] + tail;
    assert s[|head|] == c;
    assert s[..|head|] == head;
  }

  /**
   * Splitting `head sep field tail` on `sep`, where `tail` is empty or starts
   * with another separator, gives back `field` as the second piece.
   */
  lemma SecondFieldOf(head: string, sep: char, field: string, tail: string)
    requires sep !in head && sep !in field
    requires tail == [] || tail[0] == sep
    ensures SecondField(head + [sep] + field + tail, sep) == Some(field)
  {
    var s := head + [sep] + field + tail;
    assert s == head + [sep] + (field + tail);
    IndexOfAfter(head, sep, field + tail);
    var rest := s[|head| + 1..];
    assert rest == field + tail;
    if tail == [] {
      assert rest == field;
    } else {
      assert rest == field + [sep] + tail[1..];
      IndexOfAfter(field, sep, tail[1..]);
      assert rest[..|field|] == field;
    }
  }
}

/** Canonical decimal numerals: the digits of a JSON number inside a token. */
module Decimal {
  predicate IsDigit(c: char) {
    '0' <= c <= '9'
  }

  predicate AllDigits(s: string) {
    forall i | 0 <= i < |s| :: IsDigit(s[i])
  }

  /** A numeral as a serializer writes it: non-empty, digits only, no leading zero. */
  predicate IsNumeral(s: string) {
    |s| > 0 && AllDigits(s) && (s[0] == '0' ==> |s| == 1)
  }

  function DigitChar(d: nat): (c: char)
    requires d < 10
    ensures IsDigit(c)
  {
    ('0' as int + d) as char
  }

  function DigitValue(c: char): (d: nat)
    requires IsDigit(c)
    ensures d < 10 && DigitChar(d) == c
  {
    c as int - '0' as int
  }

  /** The decimal numeral of `n`. */
  function Show(n: nat): string
    decreases n
  {
    if n < 10 then [DigitChar(n)] else Show(n / 10) + [DigitChar(n % 10)]
  }

  /** The value of a string of digits. */
  function Read(s: string): nat
    requires AllDigits(s)
    decreases |s|
  {
    if s == [] then 0 else Read(s[..|s| - 1]) * 10 + DigitValue(s[|s| - 1])
  }

  /** Showing a number yields a numeral that reads back as the same number. */
  lemma {:induction false} ReadShow(n: nat)
    ensures IsNumeral(Show(n)) && Read(Show(n)) == n
    decreases n
  {
    if n >= 10 {
      ReadShow(n / 10);
      var p := Show(n / 10);
      var s := p + [DigitChar(n % 10)];
      assert s[..|s| - 1] == p;
      assert s[0] == p[0];
      assert AllDigits(s) by {
        forall i | 0 <= i < |s| ensures IsDigit(s[i]) {
          if i < |p| { assert s[i] == p[i]; }
        }
      }
    }
  }

  /** Reading a numeral and showing the value gives back the numeral itself. */
  lemma {:induction false} ShowRead(s: string)
    requires IsNumeral(s)
    ensures Show(Read(s)) == s
    decreases |s|
  {
    var p := s[..|s| - 1];
    var c := s[|s| - 1];
    if |s| == 1 {
      assert p == [];
      assert s == [c];
    } else {
      assert p[0] == s[0];
      assert AllDigits(p) by {
        forall i | 0 <= i < |p| ensures IsDigit(p[i]) { assert p[i] == s[i]; }
      }
      ShowRead(p);
      var n := Read(s);
      assert n / 10 == Read(p) && n % 10 == DigitValue(c);
      assert s == p + [c];
    }
  }
}
