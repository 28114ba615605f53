/** The string functions the coverage files are read and written with. */
module Text {

  import opened Common

  /** `s.split(sep)`. */
  function Split(s: string, sep: string): (parts: seq<string>)
    requires sep != ""
    ensures |parts| >= 1
    decreases |s|
  {
    if s == "" then [""]
    else if sep <= s then [""] + Split(s[|sep|..], sep)
    else
      var rest := Split(s[1..], sep);
      [[s[0]] + rest[0]] + rest[1..]
  }

  /** `parts.join(sep)`. */
  function Join(parts: seq<string>, sep: string): string {
    if parts == [] then ""
    else if |parts| == 1 then parts[0]
    else parts[0] + sep + Join(parts[1..], sep)
  }

  /** The parts of two texts with a character between them that the separator does not contain. */
  function Glue(left: seq<string>, c: char, right: seq<string>): seq<string>
    requires left != [] && right != []
  {
    left[..|left| - 1] + [left[|left| - 1] + [c] + right[0]] + right[1..]
  }

  lemma PrefixAcross(a: string, c: char, b: string, sep: string)
    requires c !in sep
    ensures sep <= a + [c] + b <==> sep <= a
  {
    var s := a + [c] + b;
    if |sep| <= |a| {
      assert s[..|sep|] == a[..|sep|];
    } else {
      assert s[|a|] == c;
      assert sep[|a|] in sep && sep[|a|] != s[|a|];
    }
  }

  lemma {:induction false} SplitAcross(a: string, c: char, b: string, sep: string)
    requires sep != "" && c !in sep
    ensures Split(a + [c] + b, sep) == Glue(Split(a, sep), c, Split(b, sep))
    decreases |a|
  {
    var s := a + [c] + b;
    PrefixAcross(a, c, b, sep);
    if a == "" {
      assert s == [c] + b && s[1..] == b;
      var rest := Split(b, sep);
      assert Split(s, sep) == [[c] + rest[0]] + rest[1..];
      assert "" + [c] + rest[0] == [c] + rest[0];
    } else if sep <= a {
      assert s[|sep|..] == a[|sep|..] + [c] + b;
      SplitAcross(a[|sep|..], c, b, sep);
      GlueCons("", Split(a[|sep|..], sep), c, Split(b, sep));
    } else {
      assert s[1..] == a[1..] + [c] + b && s[0] == a[0];
      SplitAcross(a[1..], c, b, sep);
      GlueHead(a[0], Split(a[1..], sep), c, Split(b, sep));
    }
  }

  lemma GlueCons(first: string, left: seq<string>, c: char, right: seq<string>)
    requires left != [] && right != []
    ensures Glue([first] + left, c, right) == [first] + Glue(left, c, right)
  {
  }

  lemma GlueHead(x: char, left: seq<string>, c: char, right: seq<string>)
    requires left != [] && right != []
    ensures var glued := Glue(left, c, right);
            Glue([[x] + left[0]] + left[1..], c, right) == [[x] + glued[0]] + glued[1..]
  {
    if |left| == 1 {
      assert [x] + (left[0] + [c] + right[0]) == [x] + left[0] + [c] + right[0];
    }
  }

  /** The separator does not occur in the text. */
  predicate Whole(s: string, sep: string)
    requires sep != ""
  {
    Split(s, sep) == [s]
  }

  lemma WholeAcross(a: string, c: char, b: string, sep: string)
    requires sep != "" && c !in sep && Whole(a, sep) && Whole(b, sep)
    ensures Whole(a + [c] + b, sep)
  {
    SplitAcross(a, c, b, sep);
  }

  lemma {:induction false} WholeWithout(s: string, sep: string)
    requires sep != "" && sep[0] !in s
    ensures Whole(s, sep)
  {
    if s != "" {
      assert s[0] in s;
      WholeWithout(s[1..], sep);
      HeadTail(s, "");
    }
  }

  /** Splitting at a single character: the part before its first occurrence, then the rest. */
  lemma {:induction false} SplitAt(a: string, c: char, b: string)
    requires c !in a
    ensures Split(a + [c] + b, [c]) == [a] + Split(b, [c])
  {
    var s := a + [c] + b;
    if a == "" {
      assert s == [c] + b && s[1..] == b;
      assert [c] <= s;
    } else {
      assert s[1..] == a[1..] + [c] + b && s[0] == a[0] && a[0] in a;
      assert !([c] <= s);
      SplitAt(a[1..], c, b);
      HeadTail(a, "");
    }
  }

  lemma WholeLine(s: string, c: char)
    requires c !in s
    ensures Split(s, [c]) == [s]
  {
    WholeWithout(s, [c]);
  }

  lemma {:induction false} SplitJoin(lines: seq<string>, c: char)
    requires lines != [] && forall i :: 0 <= i < |lines| ==> c !in lines[i]
    ensures Split(Join(lines, [c]), [c]) == lines
  {
    if |lines| == 1 {
      WholeLine(lines[0], c);
    } else {
      SplitJoin(lines[1..], c);
      SplitAt(lines[0], c, Join(lines[1..], [c]));
      HeadTail(lines, []);
    }
  }

  lemma {:induction false} JoinConcat(a: seq<string>, b: seq<string>, sep: string)
    requires a != [] && b != []
    ensures Join(a + b, sep) == Join(a, sep) + sep + Join(b, sep)
  {
    if |a| == 1 {
      assert (a + b)[1..] == b;
    } else {
      JoinConcat(a[1..], b, sep);
      assert (a + b)[1..] == a[1..] + b;
    }
  }

  // ---------------------------------------------------------------- decimal numbers

  predicate IsDigit(c: char) {
    '0' <= c <= '9'
  }

  function DigitValue(c: char): nat
    requires IsDigit(c)
  {
    c as int - '0' as int
  }

  function DigitChar(n: nat): (c: char)
    requires n < 10
    ensures IsDigit(c) && DigitValue(c) == n
  {
    ('0' as int + n) as char
  }

  /** A number as it is interpolated in a template string. */
  function Decimal(n: nat): string {
    if n < 10 then [DigitChar(n)] else Decimal(n / 10) + [DigitChar(n % 10)]
  }

  /** The value of a string of decimal digits; other strings have none here. */
  function ParseDecimal(s: string): (n: Option<nat>)
    ensures n.Some? <==> s != "" && forall i :: 0 <= i < |s| ==> IsDigit(s[i])
  {
    if s == "" || !IsDigit(s[|s| - 1]) then None
    else
      var last := DigitValue(s[|s| - 1]);
      if |s| == 1 then Some(last)
      else match ParseDecimal(s[..|s| - 1])
        case None => None
        case Some(n) => Some(10 * n + last)
  }

  /** A zero in front does not count. */
  lemma {:induction false} LeadingZero(s: string)
    requires s != ""
    ensures ParseDecimal("0" + s) == ParseDecimal(s)
    decreases |s|
  {
    var n := |s| - 1;
    assert ("0" + s)[n + 1] == s[n] && ("0" + s)[..n + 1] == "0" + s[..n];
    if n > 0 { LeadingZero(s[..n]); } else { assert "0" + s[..0] == "0"; }
  }

  lemma {:induction false} DecimalRoundTrip(n: nat)
    ensures ParseDecimal(Decimal(n)) == Some(n)
    ensures forall i :: 0 <= i < |Decimal(n)| ==> IsDigit(Decimal(n)[i])
  {
    if n >= 10 {
      DecimalRoundTrip(n / 10);
      var s := Decimal(n);
      assert s[..|s| - 1] == Decimal(n / 10) && s[|s| - 1] == DigitChar(n % 10);
    }
  }
}
