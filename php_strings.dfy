/**
 * The PHP string builtins the plugin calls, stated on `seq<char>`:
 * `implode`, `strpos(...) !== false` as a containment test, and the decimal
 * rendering that string interpolation gives a non-negative integer. `Explode`
 * (PHP's `explode` for a one-character delimiter) is not called by the
 * plugin; it is the inverse of `implode` that the proofs use to show that a
 * composed path keeps its fields apart.
 */
module PhpStrings {

  /** `implode(glue, pieces)`: the pieces in order, with `glue` between neighbours. */
  function Implode(glue: string, pieces: seq<string>): (r: string)
    ensures pieces == [] ==> r == ""
    ensures |pieces| == 1 ==> r == pieces[0]
    decreases |pieces|
  {
    if pieces == [] then ""
    else if |pieces| == 1 then pieces[0]
    else pieces[0] + glue + Implode(glue, pieces[1..])
  }

  /** `explode(delim, s)`: the maximal runs of `s` between occurrences of `delim`. */
  function Explode(delim: char, s: string): (r: seq<string>)
    ensures |r| >= 1
    ensures delim !in s ==> r == [s]
  {
    if s == [] then [""]
    else
      var rest := Explode(delim, s[1..]);
      if s[0] == delim then [""] + rest
      else assert [s[0]] + s[1..] == s; [[s[0]] + rest[0]] + rest[1..]
  }

  /** Explode splits at the first delimiter when the text before it holds none. */
  lemma {:induction false} ExplodeAtDelimiter(delim: char, head: string, tail: string)
    requires delim !in head
    ensures Explode(delim, head + [delim] + tail) == [head] + Explode(delim, tail)
    decreases |head|
  {
    if head == [] {
      assert head + [delim] + tail == [delim] + tail;
      ExplodeFirst(delim, delim, tail);
    } else {
      var rest := head[1..] + [delim] + tail;
      ExplodeAtDelimiter(delim, head[1..], tail);
      assert head + [delim] + tail == [head[0]] + rest;
      ExplodeFirst(delim, head[0], rest);
      assert [head[0]] + head[1..] == head;
    }
  }

  /** Explode after one more leading character: a delimiter starts a new run, any other character extends the first run. */
  lemma ExplodeFirst(delim: char, c: char, t: string)
    ensures Explode(delim, [c] + t) ==
      if c == delim then [""] + Explode(delim, t)
      else [[c] + Explode(delim, t)[0]] + Explode(delim, t)[1..]
  {
    assert ([c] + t)[1..] == t;
  }

  /** Implode of two non-empty lists glues the two implosions with one more glue. */
  lemma {:induction false} ImplodeAppend(glue: string, p: seq<string>, q: seq<string>)
    requires |p| > 0 && |q| > 0
    ensures Implode(glue, p + q) == Implode(glue, p) + glue + Implode(glue, q)
    decreases |p|
  {
    if |p| == 1 {
      assert (p + q)[1..] == q;
    } else {
      ImplodeAppend(glue, p[1..], q);
      assert (p + q)[1..] == p[1..] + q;
    }
  }

  /** No piece contains the character `c`. */
  predicate FreeOf(c: char, pieces: seq<string>)
  {
    forall i :: 0 <= i < |pieces| ==> c !in pieces[i]
  }

  /**
   * Round trip: splitting an implosion at the glue character gives the pieces
   * back, as long as there is at least one piece and no piece holds the glue.
   */
  lemma {:induction false} ExplodeImplode(delim: char, pieces: seq<string>)
    requires |pieces| > 0 && FreeOf(delim, pieces)
    ensures Explode(delim, Implode([delim], pieces)) == pieces
    decreases |pieces|
  {
    if |pieces| > 1 {
      assert FreeOf(delim, pieces[1..]) by {
        forall i | 0 <= i < |pieces[1..]| ensures delim !in pieces[1..][i] {
          assert pieces[1..][i] == pieces[i + 1];
        }
      }
      ExplodeImplode(delim, pieces[1..]);
      assert delim !in pieces[0];
      ExplodeAtDelimiter(delim, pieces[0], Implode([delim], pieces[1..]));
      assert [pieces[0]] + pieces[1..] == pieces;
    }
  }

  /** `needle` occurs in `haystack` starting at index `i`. */
  predicate OccursAt(haystack: string, needle: string, i: nat)
  {
    i + |needle| <= |haystack| && haystack[i..i + |needle|] == needle
  }

  /** `strpos(haystack, needle) !== false`, searched from the left. */
  function Contains(haystack: string, needle: string): bool
    decreases |haystack|
  {
    if needle <= haystack then true
    else if haystack == [] then false
    else Contains(haystack[1..], needle)
  }

  /** A match found by the search is a position holding the needle. */
  lemma {:induction false} ContainsOccurs(haystack: string, needle: string) returns (i: nat)
    requires Contains(haystack, needle)
    ensures OccursAt(haystack, needle, i)
    decreases |haystack|
  {
    if needle <= haystack {
      i := 0;
    } else {
      var j := ContainsOccurs(haystack[1..], needle);
      assert haystack[1..][j..j + |needle|] == haystack[j + 1..j + 1 + |needle|];
      i := j + 1;
    }
  }

  /** A position holding the needle is found by the search. */
  lemma {:induction false} OccursContains(haystack: string, needle: string, i: nat)
    requires OccursAt(haystack, needle, i)
    ensures Contains(haystack, needle)
    decreases i
  {
    if i > 0 && !(needle <= haystack) {
      assert haystack[1..][i - 1..i - 1 + |needle|] == haystack[i..i + |needle|];
      OccursContains(haystack[1..], needle, i - 1);
    }
  }

  /** The search agrees with the definition: some position holds the needle. */
  lemma ContainsIffOccurs(haystack: string, needle: string)
    ensures Contains(haystack, needle) <==> exists i: nat :: OccursAt(haystack, needle, i)
  {
    if Contains(haystack, needle) {
      var i := ContainsOccurs(haystack, needle);
    }
    forall i: nat | OccursAt(haystack, needle, i) ensures Contains(haystack, needle) {
      OccursContains(haystack, needle, i);
    }
  }

  function DigitChar(d: nat): (c: char)
    requires d < 10
    ensures '0' <= c <= '9'
  {
    ('0' as int + d) as char
  }

  function DigitValue(c: char): (d: nat)
    requires '0' <= c <= '9'
    ensures d < 10 && DigitChar(d) == c
  {
    c as int - '0' as int
  }

  /** How PHP interpolates a non-negative integer into a string: its decimal digits. */
  function Decimal(n: nat): (r: string)
    ensures |r| >= 1
    ensures forall i :: 0 <= i < |r| ==> '0' <= r[i] <= '9'
  {
    if n < 10 then [DigitChar(n)] else Decimal(n / 10) + [DigitChar(n % 10)]
  }

  /** Reads a string of decimal digits back as a number. */
  function ParseDecimal(s: string): nat
    requires forall i :: 0 <= i < |s| ==> '0' <= s[i] <= '9'
  {
    if s == [] then 0 else ParseDecimal(s[..|s| - 1]) * 10 + DigitValue(s[|s| - 1])
  }

  /** Round trip: the digits of `n` read back as `n`. */
  lemma {:induction false} ParseDecimalOfDecimal(n: nat)
    ensures ParseDecimal(Decimal(n)) == n
  {
    var r := Decimal(n);
    if n < 10 {
      assert r[..|r| - 1] == [];
    } else {
      ParseDecimalOfDecimal(n / 10);
      assert r[..|r| - 1] == Decimal(n / 10);
      assert r[|r| - 1] == DigitChar(n % 10);
    }
  }

  /** Different numbers are rendered as different strings. */
  lemma DecimalInjective(m: nat, n: nat)
    requires Decimal(m) == Decimal(n)
    ensures m == n
  {
    ParseDecimalOfDecimal(m);
    ParseDecimalOfDecimal(n);
  }

  /** A decimal rendering holds no character other than a digit, so no `/`. */
  lemma DecimalHasNoSlash(n: nat)
    ensures '/' !in Decimal(n)
  {
  }

  /**
   * When two strings start with a run free of `sep` followed by `sep`, those
   * runs are the same: the first `sep` marks where each one ends.
   */
  lemma LeadingFieldUnique(d1: string, x: string, d2: string, y: string, sep: char)
    requires sep !in d1 && sep !in d2
    requires d1 + [sep] + x == d2 + [sep] + y
    ensures d1 == d2
  {
    var s := d1 + [sep] + x;
    var k := if |d1| < |d2| then |d1| else |d2|;
    assert s[k] == sep;
    assert d1 == s[..|d1|] && d2 == s[..|d2|];
  }
}
