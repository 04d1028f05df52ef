/** Character-level helpers shared by the catalog and the report: ASCII case
    folding, `rfind`-style search, tab-separated fields and decimal numerals.
    Strings are byte strings in the program (it runs under Python 2), so case
    folding touches the letters 'A'..'Z' only. */
module Text {
  import opened Wrappers

  predicate IsUpperChar(c: char) {
    'A' <= c <= 'Z'
  }

  /** True when `s` holds no upper-case ASCII letter. */
  predicate IsLower(s: string) {
    forall i :: 0 <= i < |s| ==> !IsUpperChar(s[i])
  }

  /** Folds one character as a byte string's `lower()` does. */
  function LowerChar(c: char): (r: char)
    ensures !IsUpperChar(r)
    ensures !IsUpperChar(c) ==> r == c
    ensures IsUpperChar(c) ==> 'a' <= r <= 'z' && r as int == c as int + 32
  {
    if IsUpperChar(c) then (c as int + 32) as char else c
  }

  /** `s.lower()`: every character folded, nothing else changed. */
  function Lower(s: string): (r: string)
    ensures |r| == |s|
    ensures forall i :: 0 <= i < |s| ==> r[i] == LowerChar(s[i])
    ensures IsLower(r)
  {
    seq(|s|, i requires 0 <= i < |s| => LowerChar(s[i]))
  }

  /** Folding an already folded string changes nothing, so folding twice is
      folding once. */
  lemma LowerOfLower(s: string)
    requires IsLower(s)
    ensures Lower(s) == s
  {
  }

  /** Case folding neither creates nor removes a character that has no case,
      such as the tab and the dot. */
  lemma LowerKeepsCaseless(s: string, c: char)
    requires !IsUpperChar(c) && !('a' <= c <= 'z')
    ensures c in Lower(s) <==> c in s
  {
    if c in s {
      var i :| 0 <= i < |s| && s[i] == c;
      assert Lower(s)[i] == c;
    }
    if c in Lower(s) {
      var i :| 0 <= i < |s| && Lower(s)[i] == c;
      assert s[i] == c;
    }
  }

  /** True when `s` can be one field of a line of the report: it holds
      neither the field separator (tab) nor the line terminator (newline). */
  predicate IsField(s: string) {
    '\t' !in s && '\n' !in s
  }

  /** Folding keeps a field a field, and makes nothing else one. */
  lemma LowerKeepsField(s: string)
    ensures IsField(Lower(s)) <==> IsField(s)
  {
    LowerKeepsCaseless(s, '\t');
    LowerKeepsCaseless(s, '\n');
  }

  /** `s.rfind(c)`: the index of the last `c` in `s`, or -1 when there is none. */
  function LastIndexOf(s: string, c: char): (r: int)
    ensures -1 <= r < |s|
    ensures r >= 0 ==> s[r] == c
    ensures forall j :: r < j < |s| ==> s[j] != c
  {
    if |s| == 0 then -1
    else if s[|s| - 1] == c then |s| - 1
    else LastIndexOf(s[..|s| - 1], c)
  }

  /** The text after the last dot of a file name (`name[name.rfind('.') + 1:]`).
      A name without a dot is its own extension. */
  function Extension(name: string): (ext: string)
    ensures '.' !in ext
    ensures '.' !in name ==> ext == name
    ensures '.' in name ==> |ext| < |name| && name == name[..|name| - |ext| - 1] + "." + ext
  {
    var p := LastIndexOf(name, '.');
    assert p == -1 ==> name[p + 1..] == name;
    assert p >= 0 ==> name == name[..p] + "." + name[p + 1..];
    name[p + 1..]
  }

  /** The extension of `stem.ext` is `ext` when `ext` holds no dot, whatever
      the stem holds. */
  lemma ExtensionOf(stem: string, ext: string)
    requires '.' !in ext
    ensures Extension(stem + "." + ext) == ext
  {
    var name := stem + "." + ext;
    var p := LastIndexOf(name, '.');
    assert name[|stem|] == '.';
    assert p >= |stem|;
    assert name[p + 1..] == ext;
  }

  // ---- tab-separated fields -------------------------------------------------

  /** The index of the first `c` in `s`. */
  function IndexOf(s: string, c: char): (i: nat)
    requires c in s
    ensures i < |s| && s[i] == c
    ensures c !in s[..i]
  {
    if s[0] == c then 0 else 1 + IndexOf(s[1..], c)
  }

  /** The first `c` in `p + [c] + rest` is the one after `p` when `p` has none. */
  lemma {:induction false} IndexOfAfter(p: string, c: char, rest: string)
    requires c !in p
    ensures IndexOf(p + [c] + rest, c) == |p|
  {
    if p != [] {
      assert (p + [c] + rest)[1..] == p[1..] + [c] + rest;
      IndexOfAfter(p[1..], c, rest);
    }
  }

  /** Joins the parts with `sep` between consecutive parts. */
  function Join(parts: seq<string>, sep: char): string
    requires |parts| >= 1
  {
    if |parts| == 1 then parts[0] else parts[0] + [sep] + Join(parts[1..], sep)
  }

  /** Cuts `s` at every `sep`; the inverse of `Join` on parts free of `sep`. */
  function Split(s: string, sep: char): (parts: seq<string>)
    ensures |parts| >= 1
    ensures forall i :: 0 <= i < |parts| ==> sep !in parts[i]
    decreases |s|
  {
    if sep in s then
      var i := IndexOf(s, sep);
      [s[..i]] + Split(s[i + 1..], sep)
    else
      [s]
  }

  /** Splitting a joined string at the separator gives the parts back, as long
      as no part contains the separator. */
  lemma {:induction false} SplitJoin(parts: seq<string>, sep: char)
    requires |parts| >= 1
    requires forall i :: 0 <= i < |parts| ==> sep !in parts[i]
    ensures Split(Join(parts, sep), sep) == parts
    decreases |parts|
  {
    if |parts| == 1 {
      assert Join(parts, sep) == parts[0];
    } else {
      var tail := Join(parts[1..], sep);
      assert Join(parts, sep) == parts[0] + [sep] + tail;
      SplitAfter(parts[0], sep, tail);
      SplitJoin(parts[1..], sep);
      assert [parts[0]] + parts[1..] == parts;
    }
  }

  /** A string starting with a field free of `sep`, then `sep`, splits into
      that field followed by the split of the rest. */
  lemma SplitAfter(p: string, sep: char, rest: string)
    requires sep !in p
    ensures Split(p + [sep] + rest, sep) == [p] + Split(rest, sep)
  {
    var s := p + [sep] + rest;
    IndexOfAfter(p, sep, rest);
    assert s[..|p|] == p;
    assert s[|p| + 1..] == rest;
  }

  /** A character that is neither the separator nor in any part is not in
      the joined string. */
  lemma {:induction false} JoinAvoids(parts: seq<string>, sep: char, c: char)
    requires |parts| >= 1 && c != sep
    requires forall i :: 0 <= i < |parts| ==> c !in parts[i]
    ensures c !in Join(parts, sep)
    decreases |parts|
  {
    if |parts| > 1 {
      JoinAvoids(parts[1..], sep, c);
    }
  }

  // ---- lines of a text file -------------------------------------------------

  /** The text of a file whose lines are `lines`, each followed by a newline. */
  function Terminated(lines: seq<string>): string {
    if lines == [] then "" else lines[0] + "\n" + Terminated(lines[1..])
  }

  /** The lines of a text whose every line ends in a newline; `None` when the
      text does not end in one. */
  function ReadLines(text: string): Option<seq<string>> {
    var parts := Split(text, '\n');
    if parts[|parts| - 1] == "" then Some(parts[..|parts| - 1]) else None
  }

  /** Terminating every line is joining the lines and a final empty line with
      newlines. */
  lemma {:induction false} TerminatedJoin(lines: seq<string>)
    ensures Terminated(lines) == Join(lines + [""], '\n')
  {
    if lines != [] {
      TerminatedJoin(lines[1..]);
      assert (lines + [""])[1..] == lines[1..] + [""];
      assert (lines + [""])[0] == lines[0];
    } else {
      assert lines + [""] == [""];
    }
  }

  /** Reading back the text of newline-free lines gives the lines. */
  lemma ReadLinesOf(lines: seq<string>)
    requires forall i :: 0 <= i < |lines| ==> '\n' !in lines[i]
    ensures ReadLines(Terminated(lines)) == Some(lines)
  {
    var parts := lines + [""];
    TerminatedJoin(lines);
    forall i | 0 <= i < |parts|
      ensures '\n' !in parts[i]
    {
      if i < |lines| {
        assert parts[i] == lines[i];
      }
    }
    SplitJoin(parts, '\n');
    assert Split(Terminated(lines), '\n') == parts;
    assert parts[|parts| - 1] == "";
    assert parts[..|parts| - 1] == lines;
  }

  // ---- decimal numerals -----------------------------------------------------

  predicate IsDigit(c: char) {
    '0' <= c <= '9'
  }

  /** True when `s` is a non-empty run of decimal digits. */
  predicate IsDecimal(s: string) {
    |s| >= 1 && forall i :: 0 <= i < |s| ==> IsDigit(s[i])
  }

  function DigitChar(d: nat): (c: char)
    requires d < 10
    ensures IsDigit(c)
  {
    ('0' as int + d) as char
  }

  function DigitValue(c: char): nat {
    if IsDigit(c) then c as int - '0' as int else 0
  }

  /** `"%s" % n` for a non-negative integer: its decimal numeral, with no
      leading zero. */
  function NatToString(n: nat): (s: string)
    ensures IsDecimal(s)
    ensures s[0] == '0' <==> n == 0
    ensures n == 0 ==> s == "0"
  {
    if n < 10 then [DigitChar(n)] else NatToString(n / 10) + [DigitChar(n % 10)]
  }

  /** The value of a decimal numeral (non-digits read as 0). */
  function ParseNat(s: string): nat {
    if |s| == 0 then 0 else ParseNat(s[..|s| - 1]) * 10 + DigitValue(s[|s| - 1])
  }

  /** Reading a written count back gives the count. */
  lemma {:induction false} ParseNatToString(n: nat)
    ensures ParseNat(NatToString(n)) == n
  {
    if n >= 10 {
      var s := NatToString(n / 10);
      var t := s + [DigitChar(n % 10)];
      assert t[..|t| - 1] == s;
      ParseNatToString(n / 10);
    }
  }
}
