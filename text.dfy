/**
  ASCII models of the Go standard-library string helpers the tool relies on:
  strings.HasPrefix (Dafny's prefix operator `<=`), strings.Contains,
  strings.TrimSpace, strings.ToUpper, strings.Title, strings.Join and the
  line splitting of bufio.Scanner with bufio.ScanLines.
  Characters above U+007F are treated as neither spaces, letters nor
  separators, and case mapping leaves them unchanged.
*/
module Text {

  datatype Option<+T> = None | Some(value: T)

  /** The contents of a file that may be absent; Go's os.Create of a missing file leaves it empty. */
  function Existing(file: Option<string>): (s: string)
    ensures file.Some? ==> s == file.value
    ensures file.None? ==> s == ""
  {
    if file.Some? then file.value else ""
  }

  // ---------------------------------------------------------------------------
  // Characters

  /** The ASCII white space recognised by strings.TrimSpace. */
  predicate IsSpace(c: char) {
    c == ' ' || c == '\t' || c == '\n' || c == '\U{B}' || c == '\U{C}' || c == '\r'
  }

  predicate IsLower(c: char) { 'a' <= c <= 'z' }

  predicate IsUpper(c: char) { 'A' <= c <= 'Z' }

  predicate IsLetter(c: char) { IsLower(c) || IsUpper(c) }

  predicate IsDigit(c: char) { '0' <= c <= '9' }

  /** The separator test of strings.Title: every ASCII character other than a letter, a digit or '_'. */
  predicate IsSeparator(c: char) {
    c <= '\U{7F}' && !(IsLetter(c) || IsDigit(c) || c == '_')
  }

  /** unicode.ToUpper restricted to ASCII. */
  function UpperChar(c: char): (u: char)
    ensures IsLower(c) ==> IsUpper(u) && u as int == c as int - 32
    ensures !IsLower(c) ==> u == c
    ensures IsSeparator(u) == IsSeparator(c)
  {
    if IsLower(c) then (c as int - 32) as char else c
  }

  // ---------------------------------------------------------------------------
  // Searching

  /** `sub` occurs in `s` starting at offset `i`. */
  ghost predicate OccursAt(s: string, sub: string, i: int) {
    0 <= i && i + |sub| <= |s| && s[i..i + |sub|] == sub
  }

  /** strings.Contains. */
  function Contains(s: string, sub: string): (r: bool)
    ensures r <==> exists i :: OccursAt(s, sub, i)
    decreases |s|
  {
    if sub <= s then
      assert OccursAt(s, sub, 0);
      true
    else if s == [] then
      false
    else
      var r := Contains(s[1..], sub);
      if r then
        assert exists i :: OccursAt(s, sub, i) by {
          var i :| OccursAt(s[1..], sub, i);
          assert s[i + 1..i + 1 + |sub|] == s[1..][i..i + |sub|];
          assert OccursAt(s, sub, i + 1);
        }
        true
      else
        assert forall i :: OccursAt(s, sub, i) ==> i >= 1 && OccursAt(s[1..], sub, i - 1) by {
          forall i | OccursAt(s, sub, i) ensures i >= 1 && OccursAt(s[1..], sub, i - 1) {
            assert s[1..][i - 1..i - 1 + |sub|] == s[i..i + |sub|];
          }
        }
        false
  }

  /** A string cannot contain a text holding a character the string lacks. */
  lemma {:induction false} MissingCharNotContained(s: string, sub: string, c: char)
    requires c in sub && c !in s
    ensures !Contains(s, sub)
  {
  }

  /** The first position of `c` in `s` (strings.IndexByte). */
  function IndexOf(s: string, c: char): (r: Option<nat>)
    ensures r.None? ==> c !in s
    ensures r.Some? ==> r.value < |s| && s[r.value] == c && c !in s[..r.value]
  {
    if s == [] then None
    else if s[0] == c then Some(0)
    else
      match IndexOf(s[1..], c)
      case None => None
      case Some(i) =>
        assert s[..i + 1] == [s[0]] + s[1..][..i];
        Some(i + 1)
  }

  /** IndexOf finds the one position of `c` with no earlier `c`. */
  lemma IndexOfAt(s: string, c: char, i: nat)
    requires i < |s| && s[i] == c && c !in s[..i]
    ensures IndexOf(s, c) == Some(i)
  {
  }

  // ---------------------------------------------------------------------------
  // Trimming and case mapping

  /** `s` without its leading white space. */
  function TrimLeft(s: string): (r: string)
    ensures r == [] || !IsSpace(r[0])
  {
    if s != [] && IsSpace(s[0]) then TrimLeft(s[1..]) else s
  }

  /** `s` without its trailing white space. */
  function TrimRight(s: string): (r: string)
    ensures |r| <= |s|
    ensures r == [] || !IsSpace(r[|r| - 1])
    ensures r != [] ==> r[0] == s[0]
  {
    if s != [] && IsSpace(s[|s| - 1]) then TrimRight(s[..|s| - 1]) else s
  }

  /** strings.TrimSpace: the longest middle part of `s` that neither starts nor ends with white space. */
  function TrimSpace(s: string): (r: string)
    ensures r == [] || (!IsSpace(r[0]) && !IsSpace(r[|r| - 1]))
    ensures (s == [] || (!IsSpace(s[0]) && !IsSpace(s[|s| - 1]))) ==> r == s
  {
    var l := TrimLeft(s);
    assert (s != [] && !IsSpace(s[0]) && !IsSpace(s[|s| - 1])) ==> l == s;
    TrimRight(l)
  }

  /** `r` is the part of `s` from offset `i` on, with only white space before and after it. */
  ghost predicate Trimmed(s: string, r: string, i: int) {
    && 0 <= i && i + |r| <= |s| && r == s[i..i + |r|]
    && (forall k :: 0 <= k < i ==> IsSpace(s[k]))
    && (forall k :: i + |r| <= k < |s| ==> IsSpace(s[k]))
  }

  /** TrimLeft removes exactly a run of white space from the front. */
  lemma {:induction false} TrimLeftCut(s: string)
    ensures Trimmed(s, TrimLeft(s), |s| - |TrimLeft(s)|)
  {
    if s != [] && IsSpace(s[0]) {
      TrimLeftCut(s[1..]);
      var r := TrimLeft(s);
      assert s[1..][|s| - 1 - |r|..] == s[|s| - |r|..];
      forall k | 0 <= k < |s| - |r| ensures IsSpace(s[k]) {
        if k > 0 {
          assert s[k] == s[1..][k - 1];
        }
      }
    }
  }

  /** TrimRight removes exactly a run of white space from the back. */
  lemma {:induction false} TrimRightCut(s: string)
    ensures Trimmed(s, TrimRight(s), 0)
  {
    if s != [] && IsSpace(s[|s| - 1]) {
      var init := s[..|s| - 1];
      TrimRightCut(init);
      var r := TrimRight(s);
      assert init[..|r|] == s[..|r|];
      forall k | |r| <= k < |s| ensures IsSpace(s[k]) {
        if k < |s| - 1 {
          assert s[k] == init[k];
        }
      }
    }
  }

  /**
    TrimSpace removes exactly the leading and the trailing white space: the
    result is a middle part of `s` with only white space around it, and it
    neither starts nor ends with white space.
  */
  lemma TrimSpaceCut(s: string)
    ensures Trimmed(s, TrimSpace(s), |s| - |TrimLeft(s)|)
  {
    var l := TrimLeft(s);
    var r := TrimSpace(s);
    var i := |s| - |l|;
    assert Trimmed(s, l, i) by {
      TrimLeftCut(s);
    }
    assert Trimmed(l, r, 0) by {
      TrimRightCut(l);
    }
    assert s[i..i + |r|] == l[..|r|];
    forall k | i + |r| <= k < |s| ensures IsSpace(s[k]) {
      assert s[k] == l[k - i];
    }
  }

  lemma {:induction false} TrimLeftChars(s: string, c: char)
    requires c in TrimLeft(s)
    ensures c in s
  {
    if s != [] && IsSpace(s[0]) {
      TrimLeftChars(s[1..], c);
    }
  }

  lemma {:induction false} TrimRightChars(s: string, c: char)
    requires c in TrimRight(s)
    ensures c in s
  {
    if s != [] && IsSpace(s[|s| - 1]) {
      TrimRightChars(s[..|s| - 1], c);
    }
  }

  /** TrimSpace only removes characters. */
  lemma TrimSpaceChars(s: string, c: char)
    requires c in TrimSpace(s)
    ensures c in s
  {
    TrimRightChars(TrimLeft(s), c);
    TrimLeftChars(s, c);
  }

  lemma TrimSpaceIdempotent(s: string)
    ensures TrimSpace(TrimSpace(s)) == TrimSpace(s)
  {
  }

  /** strings.ToUpper, ASCII letters only. */
  function ToUpper(s: string): (r: string)
    ensures |r| == |s|
    ensures forall i :: 0 <= i < |s| ==> r[i] == UpperChar(s[i])
  {
    seq(|s|, i requires 0 <= i < |s| => UpperChar(s[i]))
  }

  /** Upper-casing distributes over concatenation. */
  lemma ToUpperAppend(a: string, b: string)
    ensures ToUpper(a + b) == ToUpper(a) + ToUpper(b)
  {
  }

  // ---------------------------------------------------------------------------
  // strings.Title

  /**
    The mapping strings.Title performs with `prev` as the character read
    before `s`: a character is upper-cased exactly when the one before it
    is a separator.
  */
  function TitleAfter(prev: char, s: string): (r: string)
    ensures |r| == |s|
    ensures forall i :: 0 <= i < |s| ==>
      r[i] == if IsSeparator(if i == 0 then prev else s[i - 1]) then UpperChar(s[i]) else s[i]
    decreases |s|
  {
    if s == [] then []
    else
      var head := if IsSeparator(prev) then UpperChar(s[0]) else s[0];
      [head] + TitleAfter(s[0], s[1..])
  }

  /** strings.Title: Go starts with a space as the previous character, so the first letter is upper-cased. */
  function Title(s: string): (r: string)
    ensures |r| == |s|
    ensures forall i :: 0 <= i < |s| ==>
      r[i] == if i == 0 || IsSeparator(s[i - 1]) then UpperChar(s[i]) else s[i]
  {
    TitleAfter(' ', s)
  }

  /** Upper-casing never turns a separator into a non-separator or back, so Title is idempotent. */
  lemma TitleIdempotent(s: string)
    ensures Title(Title(s)) == Title(s)
  {
    var t := Title(s);
    forall i | 0 <= i < |s| ensures Title(t)[i] == t[i] {
      if i > 0 {
        var c := s[i - 1];
        assert t[i - 1] == if i - 1 == 0 || IsSeparator(s[i - 2]) then UpperChar(c) else c;
        assert IsSeparator(UpperChar(c)) == IsSeparator(c);
      }
    }
  }

  // ---------------------------------------------------------------------------
  // Lines

  /** Removes one trailing carriage return, as bufio.ScanLines does. */
  function DropCR(line: string): (r: string)
    ensures r == line || (line == r + ['\r'])
    ensures (line == [] || line[|line| - 1] != '\r') ==> r == line
  {
    if line != [] && line[|line| - 1] == '\r' then line[..|line| - 1] else line
  }

  /**
    The lines bufio.Scanner yields for a file: the text is split at every
    '\n', a final segment is kept only when it is not empty, and one
    trailing '\r' is removed from each line.
  */
  function ScanLines(s: string): (lines: seq<string>)
    ensures s != [] <==> lines != []
    ensures forall j :: 0 <= j < |lines| ==> '\n' !in lines[j]
    decreases |s|
  {
    if s == [] then []
    else
      match IndexOf(s, '\n')
      case None => [DropCR(s)]
      case Some(i) => [DropCR(s[..i])] + ScanLines(s[i + 1..])
  }

  /** A line that bufio.Scanner gives back unchanged when it is terminated by '\n'. */
  ghost predicate PlainLine(line: string) {
    '\n' !in line && (line == [] || line[|line| - 1] != '\r')
  }

  /** Each line followed by '\n', concatenated: the layout of a file written line by line. */
  function Terminated(lines: seq<string>): (s: string)
    ensures lines == [] <==> s == []
  {
    if lines == [] then [] else lines[0] + "\n" + Terminated(lines[1..])
  }

  lemma {:induction false} TerminatedAppend(a: seq<string>, b: seq<string>)
    ensures Terminated(a + b) == Terminated(a) + Terminated(b)
  {
    if a != [] {
      assert (a + b)[1..] == a[1..] + b;
      TerminatedAppend(a[1..], b);
    } else {
      assert a + b == b;
    }
  }

  /** The scanner reports the text before the first '\n' as one line and continues after it. */
  lemma ScanLinesCons(line: string, rest: string)
    requires '\n' !in line
    ensures ScanLines(line + "\n" + rest) == [DropCR(line)] + ScanLines(rest)
  {
    var s := line + "\n" + rest;
    assert s[|line|] == '\n' && s[..|line|] == line;
    IndexOfAt(s, '\n', |line|);
    assert s[|line| + 1..] == rest;
  }

  /** Reading back a file written as '\n'-terminated lines yields those lines. */
  lemma {:induction false} ScanTerminated(lines: seq<string>)
    requires forall j :: 0 <= j < |lines| ==> PlainLine(lines[j])
    ensures ScanLines(Terminated(lines)) == lines
  {
    if lines != [] {
      assert PlainLine(lines[0]);
      ScanLinesCons(lines[0], Terminated(lines[1..]));
      ScanTerminated(lines[1..]);
    }
  }

  /** strings.Join with separator `sep`. */
  function Join(lines: seq<string>, sep: string): (s: string)
    ensures lines == [] ==> s == []
    ensures lines != [] ==> lines[0] <= s
    ensures |lines| == 1 ==> s == lines[0]
    ensures |lines| > 1 ==> s == lines[0] + sep + Join(lines[1..], sep)
  {
    if lines == [] then []
    else if |lines| == 1 then lines[0]
    else lines[0] + sep + Join(lines[1..], sep)
  }

  /**
    Lines joined with "\n" (no newline after the last one) are read back
    unchanged, provided the last line is not empty: an empty last line
    leaves no final segment for the scanner to report.
  */
  lemma {:induction false} ScanJoin(lines: seq<string>)
    requires forall j :: 0 <= j < |lines| ==> PlainLine(lines[j])
    requires lines == [] || lines[|lines| - 1] != []
    ensures ScanLines(Join(lines, "\n")) == lines
  {
    if |lines| == 1 {
      assert PlainLine(lines[0]);
      assert IndexOf(lines[0], '\n') == None;
    } else if |lines| > 1 {
      var rest := Join(lines[1..], "\n");
      assert ScanLines(Join(lines, "\n")) == [lines[0]] + ScanLines(rest) by {
        assert PlainLine(lines[0]);
        assert Join(lines, "\n") == lines[0] + "\n" + rest;
        ScanLinesCons(lines[0], rest);
      }
      ScanJoin(lines[1..]);
      assert lines == [lines[0]] + lines[1..];
    }
  }
}
