/** The pieces of Ruby's core library that `parallel_tests.rb` leans on, with
    their Ruby meaning written out: `nil`, `String#split` with a one-character
    separator, and `Integer#to_s`. */
module RubyText {

  /** A Ruby value that may be `nil`. */
  datatype Option<T> = None | Some(value: T)

  /** Ruby's `\d`: an ASCII decimal digit. */
  predicate IsDigit(c: char) { '0' <= c <= '9' }

  /** Every piece of `s` between occurrences of `sep`, empty pieces included:
      there is one more piece than `s` has separators. */
  function Fields(s: string, sep: char): (r: seq<string>)
    ensures |r| >= 1
    ensures forall i :: 0 <= i < |r| ==> sep !in r[i]
  {
    if s == [] then [""]
    else
      var rest := Fields(s[1..], sep);
      if s[0] == sep then [""] + rest else [[s[0]] + rest[0]] + rest[1..]
  }

  /** The pieces glued back together with `sep` between neighbours. */
  function Join(pieces: seq<string>, sep: char): string
  {
    if pieces == [] then ""
    else if |pieces| == 1 then pieces[0]
    else pieces[0] + [sep] + Join(pieces[1..], sep)
  }

  /** Cutting at every separator loses nothing: the pieces join back to `s`. */
  lemma {:induction false} JoinFields(s: string, sep: char)
    ensures Join(Fields(s, sep), sep) == s
  {
    if s != [] {
      JoinFields(s[1..], sep);
      var rest := Fields(s[1..], sep);
      if s[0] == sep {
        assert ([""] + rest)[1..] == rest;
      } else {
        var r := [[s[0]] + rest[0]] + rest[1..];
        assert r[1..] == rest[1..];
        if |rest| > 1 {
          assert Join(rest, sep) == rest[0] + [sep] + Join(rest[1..], sep);
        }
        assert s == [s[0]] + s[1..];
      }
    }
  }

  /** A piece without the separator is a single field. */
  lemma {:induction false} FieldsOfPiece(a: string, sep: char)
    requires sep !in a
    ensures Fields(a, sep) == [a]
  {
    if a != [] {
      FieldsOfPiece(a[1..], sep);
      assert [a[0]] + a[1..] == a;
    }
  }

  /** A separator-free piece followed by the separator is cut off as the first field. */
  lemma {:induction false} FieldsOfSeparated(a: string, t: string, sep: char)
    requires sep !in a
    ensures Fields(a + [sep] + t, sep) == [a] + Fields(t, sep)
  {
    if a == [] {
      assert a + [sep] + t == [sep] + t;
      assert ([sep] + t)[1..] == t;
    } else {
      var s := a + [sep] + t;
      assert s[1..] == a[1..] + [sep] + t;
      FieldsOfSeparated(a[1..], t, sep);
      assert [a[0]] + a[1..] == a;
    }
  }

  /** Joining separator-free pieces and cutting again gives the pieces back. */
  lemma {:induction false} FieldsJoin(pieces: seq<string>, sep: char)
    requires |pieces| >= 1
    requires forall i :: 0 <= i < |pieces| ==> sep !in pieces[i]
    ensures Fields(Join(pieces, sep), sep) == pieces
  {
    if |pieces| == 1 {
      FieldsOfPiece(pieces[0], sep);
    } else {
      FieldsJoin(pieces[1..], sep);
      FieldsOfSeparated(pieces[0], Join(pieces[1..], sep), sep);
      assert [pieces[0]] + pieces[1..] == pieces;
    }
  }

  /** The fields less any empty fields at the end. */
  function DropTrailingEmpty(fields: seq<string>): (r: seq<string>)
    ensures r <= fields
    ensures r == [] || r[|r| - 1] != ""
    ensures forall i :: |r| <= i < |fields| ==> fields[i] == ""
  {
    if fields == [] || fields[|fields| - 1] != "" then fields
    else DropTrailingEmpty(fields[..|fields| - 1])
  }

  /** `s.split(sep)` for a one-character `sep`: the pieces between
      separators, with the empty pieces at the end dropped (so `"".split`
      is empty and a trailing newline adds no line). */
  function Split(s: string, sep: char): (r: seq<string>)
    ensures forall i :: 0 <= i < |r| ==> sep !in r[i]
    ensures r == [] || r[|r| - 1] != ""
  {
    DropTrailingEmpty(Fields(s, sep))
  }

  lemma {:induction false} JoinSnocEmpty(pieces: seq<string>, sep: char)
    requires pieces != []
    ensures Join(pieces + [""], sep) == Join(pieces, sep) + [sep]
  {
    if |pieces| == 1 {
      assert (pieces + [""])[1..] == [""];
    } else {
      assert (pieces + [""])[1..] == pieces[1..] + [""];
      JoinSnocEmpty(pieces[1..], sep);
    }
  }

  lemma {:induction false} JoinDropTrailingEmpty(fields: seq<string>, sep: char)
    ensures Join(DropTrailingEmpty(fields), sep) <= Join(fields, sep)
    ensures forall i :: |Join(DropTrailingEmpty(fields), sep)| <= i < |Join(fields, sep)| ==>
              Join(fields, sep)[i] == sep
  {
    if fields != [] && fields[|fields| - 1] == "" {
      var init := fields[..|fields| - 1];
      JoinDropTrailingEmpty(init, sep);
      assert fields == init + [""];
      if init != [] {
        JoinSnocEmpty(init, sep);
      }
    }
  }

  /** `split` only ever loses separators at the very end of the text: the
      pieces it returns join up to a prefix of `s`, and what is left over
      is nothing but separators. With the two properties `Split` ensures
      (no piece holds a separator, the last piece is not empty) this
      determines the result. */
  lemma SplitLosesOnlyTrailingSeparators(s: string, sep: char)
    ensures Join(Split(s, sep), sep) <= s
    ensures forall i :: |Join(Split(s, sep), sep)| <= i < |s| ==> s[i] == sep
  {
    JoinFields(s, sep);
    JoinDropTrailingEmpty(Fields(s, sep), sep);
  }

  /** A non-empty text without the separator splits into itself alone. */
  lemma SplitOfPiece(s: string, sep: char)
    requires s != [] && sep !in s
    ensures Split(s, sep) == [s]
  {
    FieldsOfPiece(s, sep);
  }

  /** The digit character of a value below ten. */
  function DigitChar(d: nat): (c: char)
    requires d < 10
    ensures IsDigit(c)
  {
    ('0' as int + d) as char
  }

  /** The value of a digit character (zero for anything else). */
  function DigitValue(c: char): nat
  {
    if IsDigit(c) then c as int - '0' as int else 0
  }

  /** `Integer#to_s`: the decimal digits of `n`, most significant first,
      without leading zeros. */
  function DecimalString(n: nat): (r: string)
    ensures r != []
    ensures forall i :: 0 <= i < |r| ==> IsDigit(r[i])
    ensures r[0] == '0' ==> n == 0
  {
    if n < 10 then [DigitChar(n)] else DecimalString(n / 10) + [DigitChar(n % 10)]
  }

  /** The number a string of decimal digits denotes. */
  function ParseDecimal(s: string): nat
  {
    if s == [] then 0 else 10 * ParseDecimal(s[..|s| - 1]) + DigitValue(s[|s| - 1])
  }

  /** Reading back the decimal rendering of `n` gives `n`. */
  lemma {:induction false} ParseDecimalString(n: nat)
    ensures ParseDecimal(DecimalString(n)) == n
  {
    if n >= 10 {
      ParseDecimalString(n / 10);
      var s := DecimalString(n);
      assert s[..|s| - 1] == DecimalString(n / 10);
    }
  }

  /** Different numbers render differently. */
  lemma DecimalStringInjective(a: nat, b: nat)
    requires DecimalString(a) == DecimalString(b)
    ensures a == b
  {
    ParseDecimalString(a);
    ParseDecimalString(b);
  }

  /** `String#<=>` as `sort` uses it: character by character, and a proper
      prefix comes first. */
  predicate LexLessEq(a: string, b: string)
  {
    if a == [] then true
    else if b == [] then false
    else if a[0] != b[0] then a[0] < b[0]
    else LexLessEq(a[1..], b[1..])
  }

  /** Any two strings are ordered one way or the other. */
  lemma {:induction false} LexLessEqTotal(a: string, b: string)
    ensures LexLessEq(a, b) || LexLessEq(b, a)
  {
    if a != [] && b != [] && a[0] == b[0] {
      LexLessEqTotal(a[1..], b[1..]);
    }
  }

  predicate Sorted(s: seq<string>)
  {
    forall i :: 0 < i < |s| ==> LexLessEq(s[i - 1], s[i])
  }

  /** `x` put into the sorted list `s` just before the first element it
      does not come after. */
  function Insert(x: string, s: seq<string>): (r: seq<string>)
    requires Sorted(s)
    ensures Sorted(r)
    ensures multiset(r) == multiset(s) + multiset{x}
    ensures |r| == |s| + 1 && (r[0] == x || (s != [] && r[0] == s[0]))
  {
    if s == [] || LexLessEq(x, s[0]) then [x] + s
    else
      LexLessEqTotal(x, s[0]);
      assert s == [s[0]] + s[1..];
      [s[0]] + Insert(x, s[1..])
  }

  /** `Array#sort` on strings: the same strings in ascending order. */
  function SortStrings(s: seq<string>): (r: seq<string>)
    ensures Sorted(r)
    ensures multiset(r) == multiset(s)
    ensures |r| == |s|
  {
    if s == [] then []
    else
      assert s == [s[0]] + s[1..];
      Insert(s[0], SortStrings(s[1..]))
  }
}
