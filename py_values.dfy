/** The few Python runtime values the 5.07 checker's per-company loop works
    with: optional dictionary entries, spreadsheet cells, object attributes
    that may be absent or None, truthiness, f-string rendering of a cell and
    the `in` test on strings. */
module PyValues {

  /** `dict.get` without a default: the entry, or None when the key is absent. */
  datatype Option<+T> = None | Some(value: T) {
    /** `dict.get(key, default)` */
    function GetOr(default: T): T {
      match this
      case Some(v) => v
      case None => default
    }
  }

  /** A spreadsheet cell as pandas hands it over: text or an integer. */
  datatype Cell = Text(text: string) | Number(n: int)

  /** An attribute of a library object: absent (`hasattr` is false),
      present but None, or present with a value. */
  datatype Attr<+T> = Missing | NoneValue | Value(v: T)

  /** Python truthiness of a looked-up cell, as in `if not cik`:
      None, the empty string and 0 are false, everything else is true. */
  predicate Truthy(c: Option<Cell>) {
    match c
    case None => false
    case Some(Text(s)) => s != ""
    case Some(Number(n)) => n != 0
  }

  predicate IsDigit(ch: char) {
    '0' <= ch <= '9'
  }

  function DigitChar(d: int): (ch: char)
    requires 0 <= d < 10
    ensures IsDigit(ch)
  {
    ('0' as int + d) as char
  }

  function DigitValue(ch: char): (d: int)
    requires IsDigit(ch)
    ensures 0 <= d < 10
  {
    ch as int - '0' as int
  }

  /** The decimal digits of `n`, most significant first, as `str(n)` writes
      them: never empty, digits only, and no leading zero unless `n` is 0. */
  function Digits(n: nat): (s: string)
    ensures |s| >= 1
    ensures forall i :: 0 <= i < |s| ==> IsDigit(s[i])
    ensures s[0] == '0' ==> n == 0
  {
    if n < 10 then [DigitChar(n)] else Digits(n / 10) + [DigitChar(n % 10)]
  }

  /** Reads a string of decimal digits back as a number. */
  function ParseDigits(s: string): nat
    requires forall i :: 0 <= i < |s| ==> IsDigit(s[i])
  {
    if s == [] then 0 else ParseDigits(s[..|s| - 1]) * 10 + DigitValue(s[|s| - 1])
  }

  /** Reading the digits of `n` gives `n` back. */
  lemma {:induction false} DigitsRoundTrip(n: nat)
    ensures ParseDigits(Digits(n)) == n
  {
    if n >= 10 {
      var s := Digits(n);
      assert s[..|s| - 1] == Digits(n / 10);
      DigitsRoundTrip(n / 10);
    }
  }

  /** `str(n)` for any integer. */
  function Decimal(n: int): string {
    if n < 0 then "-" + Digits(-n) else Digits(n)
  }

  /** What `f"{cell}"` writes for a cell. */
  function Render(c: Cell): string {
    match c
    case Text(s) => s
    case Number(n) => Decimal(n)
  }

  /** A positive numeric cell is written as its decimal digits: no sign, no
      leading zero, and reading them back gives the number. */
  lemma RenderPositiveNumber(n: int)
    requires n > 0
    ensures var s := Render(Number(n));
      && (forall i :: 0 <= i < |s| ==> IsDigit(s[i]))
      && s[0] != '0'
      && ParseDigits(s) == n
  {
    DigitsRoundTrip(n);
  }

  predicate StartsWith(s: string, prefix: string) {
    |prefix| <= |s| && s[..|prefix|] == prefix
  }

  predicate EndsWith(s: string, suffix: string) {
    |suffix| <= |s| && s[|s| - |suffix|..] == suffix
  }

  /** Python's `needle in hay` on two strings: `needle` occurs somewhere in `hay`. */
  predicate ContainsText(hay: string, needle: string)
    decreases |hay|
  {
    StartsWith(hay, needle) || (hay != [] && ContainsText(hay[1..], needle))
  }

  /** `needle` sits in `hay` starting at offset `i`. */
  predicate OccursAt(hay: string, needle: string, i: int) {
    0 <= i <= |hay| - |needle| && hay[i..i + |needle|] == needle
  }

  /** `ContainsText` holds exactly when `needle` occurs in `hay` at some offset. */
  lemma {:induction false} ContainsTextAt(hay: string, needle: string)
    ensures ContainsText(hay, needle) <==> exists i :: OccursAt(hay, needle, i)
    decreases |hay|
  {
    if StartsWith(hay, needle) {
      assert OccursAt(hay, needle, 0);
    } else if hay != [] {
      ContainsTextAt(hay[1..], needle);
      if ContainsText(hay[1..], needle) {
        var j :| OccursAt(hay[1..], needle, j);
        assert OccursAt(hay, needle, j + 1);
      }
      if i :| OccursAt(hay, needle, i) {
        assert i > 0;
        assert OccursAt(hay[1..], needle, i - 1);
      }
    }
  }
}
