/** The handful of Ruby String methods the importer relies on: `downcase`
    (for the capitals of the Latin-1, Greek and Cyrillic blocks), `strip`,
    `split(' ', 2)` and `split(',')`. */
module Text {

  /** A capital letter whose lower-case form is a single character at a
      fixed distance: A to Z, the Latin-1 capitals but the multiplication
      sign, the Greek capitals alpha to omega, and the Cyrillic capitals. */
  predicate IsUpper(c: char)
  {
    || 'A' <= c <= 'Z'
    || (0xC0 <= c as int <= 0xDE && c as int != 0xD7)
    || (0x391 <= c as int <= 0x3A9 && c as int != 0x3A2)
    || 0x400 <= c as int <= 0x42F
  }

  /** The lower-case form of a capital, any other character unchanged. */
  function LowerChar(c: char): (d: char)
    ensures !IsUpper(d)
    ensures IsUpper(c) ==> d != c
    ensures !IsUpper(c) ==> d == c
  {
    if 0x400 <= c as int <= 0x40F then ((c as int) + 80) as char
    else if IsUpper(c) then ((c as int) + 32) as char
    else c
  }

  /** String#downcase on the capitals `IsUpper` knows. */
  function Lower(s: string): (r: string)
    ensures |r| == |s|
    ensures forall i :: 0 <= i < |r| ==> r[i] == LowerChar(s[i]) && !IsUpper(r[i])
  {
    seq(|s|, i requires 0 <= i < |s| => LowerChar(s[i]))
  }

  lemma LowerIdempotent(s: string)
    ensures Lower(Lower(s)) == Lower(s)
  {
  }

  /** Ruby's `isspace`: space, tab, line feed, vertical tab, form feed and
      carriage return. */
  predicate IsSpace(c: char)
  {
    c == ' ' || c == '\t' || c == '\n' || c == '\r' || c as int == 11 || c as int == 12
  }

  /** What String#strip removes: whitespace and NUL. */
  predicate IsBlank(c: char)
  {
    IsSpace(c) || c == '\0'
  }

  /** The length of the longest prefix of `s` whose characters satisfy `p`. */
  function Leading(s: string, p: char -> bool): (n: nat)
    ensures n <= |s|
    ensures forall k :: 0 <= k < n ==> p(s[k])
    ensures n < |s| ==> !p(s[n])
  {
    if s == [] || !p(s[0]) then 0 else 1 + Leading(s[1..], p)
  }

  /** Where the longest suffix of `s` whose characters satisfy `p` begins. */
  function TrailingStart(s: string, p: char -> bool): (n: nat)
    ensures n <= |s|
    ensures forall k :: n <= k < |s| ==> p(s[k])
    ensures 0 < n ==> !p(s[n - 1])
  {
    if s == [] || !p(s[|s| - 1]) then |s| else TrailingStart(s[..|s| - 1], p)
  }

  /** The index of the first character of `s` satisfying `p`, or |s|. */
  function FirstIndex(s: string, p: char -> bool): (n: nat)
    ensures n <= |s|
    ensures forall k :: 0 <= k < n ==> !p(s[k])
    ensures n < |s| ==> p(s[n])
  {
    if s == [] || p(s[0]) then 0 else 1 + FirstIndex(s[1..], p)
  }

  /** String#strip. */
  function Strip(s: string): (r: string)
    ensures r == [] || (!IsBlank(r[0]) && !IsBlank(r[|r| - 1]))
    ensures r == [] <==> forall k :: 0 <= k < |s| ==> IsBlank(s[k])
    ensures |r| <= |s|
    ensures exists a, b :: 0 <= a <= b <= |s| && r == s[a..b]
                           && (forall k :: 0 <= k < a ==> IsBlank(s[k])) && (forall k :: b <= k < |s| ==> IsBlank(s[k]))
  {
    var i := Leading(s, IsBlank);
    var t := s[i..];
    var j := TrailingStart(t, IsBlank);
    assert t[..j] == s[i..i + j];
    t[..j]
  }

  /** `s.split(' ', 2)`: Ruby's whitespace ("awk") splitting with a limit of
      two. Leading whitespace is skipped, the first field ends at the first
      whitespace, the run of whitespace after it is skipped and the rest of
      the string, trailing whitespace included, is the second field. An empty
      string gives no field at all; a string of whitespace only gives one
      empty field. */
  function SplitFirstWord(s: string): (r: seq<string>)
    ensures |r| <= 2
    ensures r == [] <==> s == []
    ensures |r| == 2 ==> r[0] != [] && forall k :: 0 <= k < |r[0]| ==> !IsSpace(r[0][k])
    ensures |r| == 2 ==> r[1] == [] || !IsSpace(r[1][0])
  {
    if s == [] then []
    else
      var t := s[Leading(s, IsSpace)..];
      if t == [] then [[]]
      else
        var k := FirstIndex(t, IsSpace);
        if k == |t| then [t]
        else
          var rest := t[k..];
          [t[..k], rest[Leading(rest, IsSpace)..]]
  }

  /** A first word, one space and a rest that does not start with
      whitespace split back into the word and the rest. */
  lemma SplitFirstWordJoin(a: string, b: string)
    requires a != [] && forall k :: 0 <= k < |a| ==> !IsSpace(a[k])
    requires b == [] || !IsSpace(b[0])
    ensures SplitFirstWord(a + " " + b) == [a, b]
  {
    var s := a + " " + b;
    assert s[0] == a[0];
    var k := FirstIndex(s, IsSpace);
    assert s[|a|] == ' ';
    assert k == |a|;
    var rest := s[k..];
    assert rest == " " + b;
    var l := Leading(rest, IsSpace);
    assert rest[l..] == b;
    assert s[..k] == a;
  }

  /** A single word is not split. */
  lemma SplitOneWord(a: string)
    requires a != [] && forall k :: 0 <= k < |a| ==> !IsSpace(a[k])
    ensures SplitFirstWord(a) == [a]
  {
    assert !IsSpace(a[0]);
    var k := FirstIndex(a, IsSpace);
    assert k == |a|;
  }

  /** The index of the first `sep` in `s`, or |s|. */
  function IndexOf(s: string, sep: char): (n: nat)
    ensures n <= |s|
    ensures forall k :: 0 <= k < n ==> s[k] != sep
    ensures n < |s| ==> s[n] == sep
  {
    if s == [] || s[0] == sep then 0 else 1 + IndexOf(s[1..], sep)
  }

  /** Splits at every occurrence of `sep`, keeping empty fields. */
  function SplitOn(s: string, sep: char): (r: seq<string>)
    ensures |r| >= 1
    ensures forall i, k :: 0 <= i < |r| && 0 <= k < |r[i]| ==> r[i][k] != sep
    decreases |s|
  {
    var k := IndexOf(s, sep);
    if k == |s| then [s] else [s[..k]] + SplitOn(s[k + 1..], sep)
  }

  /** The inverse of SplitOn: the fields glued back with `sep`. */
  function Join(fields: seq<string>, sep: char): string
  {
    if fields == [] then []
    else if |fields| == 1 then fields[0]
    else fields[0] + [sep] + Join(fields[1..], sep)
  }

  /** Splitting loses nothing: the fields joined again give the input. */
  lemma {:induction false} SplitOnJoin(s: string, sep: char)
    ensures Join(SplitOn(s, sep), sep) == s
    decreases |s|
  {
    var k := IndexOf(s, sep);
    if k < |s| {
      SplitOnJoin(s[k + 1..], sep);
      var r := SplitOn(s, sep);
      assert r == [s[..k]] + SplitOn(s[k + 1..], sep);
      assert r[1..] == SplitOn(s[k + 1..], sep);
      assert s == s[..k] + [sep] + s[k + 1..];
    }
  }

  /** Ruby drops the empty fields at the end of a split without a limit. */
  function DropTrailingEmpty(fields: seq<string>): (r: seq<string>)
    ensures |r| <= |fields| && r == fields[..|r|]
    ensures r == [] || r[|r| - 1] != []
    ensures forall i :: |r| <= i < |fields| ==> fields[i] == []
  {
    if fields == [] || fields[|fields| - 1] != [] then fields
    else DropTrailingEmpty(fields[..|fields| - 1])
  }

  /** `s.split(',')`. */
  function SplitComma(s: string): (r: seq<string>)
    ensures forall i, k :: 0 <= i < |r| && 0 <= k < |r[i]| ==> r[i][k] != ','
  {
    DropTrailingEmpty(SplitOn(s, ','))
  }
}
