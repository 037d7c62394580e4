/**
  The `env.d.ts` declaration file of a bare React Native project: a
  `declare module "@env" { ... }` block with one `export const KEY: string;`
  line per variable, edited line by line.
*/
module EnvDts {
  import opened Text

  /** The opening line of the wrapper block; its presence is all the structure check looks for. */
  const Marker := "declare module \"@env\" {"

  /** What a missing or malformed file is (re)written with. */
  const InitialContent := Marker + "\n}\n"

  /** The text whose presence in a line marks it as the declaration of `key`; the key is not upper-cased. */
  function DeclPattern(key: string): string {
    "export const " + key
  }

  /** The declaration line written for `key`, whose name is upper-cased. */
  function Declaration(key: string): string {
    "  export const " + ToUpper(key) + ": string;"
  }

  // ---------------------------------------------------------------------------
  // Structure

  /**
    EnsureCorrectEnvDTSStructure: the file's text once the check is done
    (`file` is None when the file does not exist). A missing file, or one
    without the opening marker, is replaced by the empty block; any other
    text is left as it is.
  */
  function EnsureStructure(file: Option<string>): (content: string)
    ensures Contains(content, Marker)
    ensures file.Some? && Contains(file.value, Marker) ==> content == file.value
    ensures content == InitialContent || file == Some(content)
  {
    assert Contains(InitialContent, Marker) by {
      assert InitialContent[..|Marker|] == Marker;
      assert OccursAt(InitialContent, Marker, 0);
    }
    if file.Some? && Contains(file.value, Marker) then file.value else InitialContent
  }

  lemma EnsureStructureIdempotent(file: Option<string>)
    ensures EnsureStructure(Some(EnsureStructure(file))) == EnsureStructure(file)
  {
  }

  /** After the structure check the scanner sees at least one line, so the insertion below never slices an empty list. */
  lemma StructuredLinesNonEmpty(file: Option<string>)
    ensures ScanLines(EnsureStructure(file)) != []
  {
    var content := EnsureStructure(file);
    var i :| OccursAt(content, Marker, i);
    assert content != [];
  }

  // ---------------------------------------------------------------------------
  // Finding a declaration

  /** The first line containing `pattern`. */
  function FirstMatch(lines: seq<string>, pattern: string): (r: Option<nat>)
    ensures r.None? ==> forall j :: 0 <= j < |lines| ==> !Contains(lines[j], pattern)
    ensures r.Some? ==> r.value < |lines| && Contains(lines[r.value], pattern)
    ensures r.Some? ==> forall j :: 0 <= j < r.value ==> !Contains(lines[j], pattern)
  {
    if lines == [] then None
    else if Contains(lines[0], pattern) then Some(0)
    else
      match FirstMatch(lines[1..], pattern)
      case None => None
      case Some(i) => Some(i + 1)
  }

  lemma FirstMatchAt(lines: seq<string>, pattern: string, i: nat)
    requires i < |lines| && Contains(lines[i], pattern)
    requires forall j :: 0 <= j < i ==> !Contains(lines[j], pattern)
    ensures FirstMatch(lines, pattern) == Some(i)
  {
  }

  // ---------------------------------------------------------------------------
  // The two edits, as values

  /** Remove mode: the first line containing the pattern of `key` is deleted, if there is one. */
  function WithoutDeclaration(lines: seq<string>, key: string): (r: seq<string>)
    ensures |r| == |lines| || |r| == |lines| - 1
    ensures multiset(r) <= multiset(lines)
  {
    match FirstMatch(lines, DeclPattern(key))
    case None => lines
    case Some(i) =>
      assert lines == lines[..i] + [lines[i]] + lines[i + 1..];
      lines[..i] + lines[i + 1..]
  }

  /**
    Add mode: the first line containing the pattern of `key` is replaced by
    the declaration; with no such line, the last line (the closing brace of
    a well-formed file) is replaced by the declaration followed by "}",
    unless the key is empty. Go would panic slicing an empty list, which
    the structure check rules out.
  */
  function WithDeclaration(lines: seq<string>, key: string): (r: seq<string>)
    requires lines != [] || key == ""
    ensures |r| == |lines| || (key != "" && |r| == |lines| + 1)
  {
    match FirstMatch(lines, DeclPattern(key))
    case Some(i) => lines[i := Declaration(key)]
    case None => if key == "" then lines else lines[..|lines| - 1] + [Declaration(key), "}"]
  }

  /** No line mentions the key. */
  ghost predicate Unmatched(lines: seq<string>, key: string) {
    forall j :: 0 <= j < |lines| ==> !Contains(lines[j], DeclPattern(key))
  }

  /** Line `i` is the first to mention the key. */
  ghost predicate FirstMatchIs(lines: seq<string>, key: string, i: nat) {
    i < |lines| && Contains(lines[i], DeclPattern(key))
    && forall j :: 0 <= j < i ==> !Contains(lines[j], DeclPattern(key))
  }

  lemma RemoveAtFirstMatch(lines: seq<string>, key: string, i: nat)
    requires FirstMatchIs(lines, key, i)
    ensures WithoutDeclaration(lines, key) == lines[..i] + lines[i + 1..]
  {
    FirstMatchAt(lines, DeclPattern(key), i);
  }

  lemma RemoveUnmatched(lines: seq<string>, key: string)
    requires Unmatched(lines, key)
    ensures WithoutDeclaration(lines, key) == lines
  {
  }

  lemma UpsertAtFirstMatch(lines: seq<string>, key: string, i: nat)
    requires FirstMatchIs(lines, key, i)
    ensures WithDeclaration(lines, key) == lines[i := Declaration(key)]
  {
    FirstMatchAt(lines, DeclPattern(key), i);
  }

  lemma UpsertUnmatched(lines: seq<string>, key: string)
    requires lines != [] || key == ""
    requires Unmatched(lines, key)
    ensures WithDeclaration(lines, key) == if key == "" then lines else lines[..|lines| - 1] + [Declaration(key), "}"]
  {
  }

  // ---------------------------------------------------------------------------
  // The two edits, as UpdateEnvDTS performs them on its slice of lines

  method RemoveDeclaration(content: seq<string>, key: string) returns (r: seq<string>)
    ensures r == WithoutDeclaration(content, key)
  {
    var pattern := DeclPattern(key);
    r := content;
    var i := 0;
    while i < |content|
      invariant 0 <= i <= |content|
      invariant forall j :: 0 <= j < i ==> !Contains(content[j], pattern)
    {
      if Contains(content[i], pattern) {
        FirstMatchAt(content, pattern, i);
        r := content[..i] + content[i + 1..];
        return;
      }
      i := i + 1;
    }
  }

  method UpsertDeclaration(content: seq<string>, key: string) returns (r: seq<string>)
    requires content != [] || key == ""
    ensures r == WithDeclaration(content, key)
  {
    var pattern := DeclPattern(key);
    r := content;
    var found := false;
    var i := 0;
    while i < |content|
      invariant 0 <= i <= |content|
      invariant forall j :: 0 <= j < i ==> !Contains(content[j], pattern)
    {
      if Contains(content[i], pattern) {
        FirstMatchAt(content, pattern, i);
        r := content[i := Declaration(key)];
        found := true;
        break;
      }
      i := i + 1;
    }
    if !found && key != "" {
      r := content[..|content| - 1] + [Declaration(key), "}"];
    }
  }

  // ---------------------------------------------------------------------------
  // UpdateEnvDTS

  /** The lines UpdateEnvDTS writes, before joining. */
  function EditedLines(file: Option<string>, key: string, isRemove: bool): (r: seq<string>)
    ensures !isRemove && key != "" ==> Declaration(key) in r
  {
    StructuredLinesNonEmpty(file);
    assert !isRemove && key != "" ==> Declaration(key) in WithDeclaration(ScanLines(EnsureStructure(file)), key) by {
      if !isRemove && key != "" {
        WithDeclarationDeclares(ScanLines(EnsureStructure(file)), key);
      }
    }
    var lines := ScanLines(EnsureStructure(file));
    if isRemove then WithoutDeclaration(lines, key) else WithDeclaration(lines, key)
  }

  /** The text UpdateEnvDTS leaves in the file: the edited lines joined by "\n", with no final newline. */
  function UpdatedDts(file: Option<string>, key: string, isRemove: bool): string
  {
    Join(EditedLines(file, key, isRemove), "\n")
  }

  /**
    UpdateEnvDTS. `repaired` is the file's text after the structure check
    (already on disk when the final write fails); `written` is the text of
    the final write.
  */
  method UpdateEnvDts(file: Option<string>, key: string, isRemove: bool) returns (repaired: string, written: string)
    ensures repaired == EnsureStructure(file) && Contains(repaired, Marker)
    ensures written == UpdatedDts(file, key, isRemove)
  {
    repaired := EnsureStructure(file);
    var content := ScanLines(repaired);
    StructuredLinesNonEmpty(file);
    if isRemove {
      content := RemoveDeclaration(content, key);
    } else {
      content := UpsertDeclaration(content, key);
    }
    written := Join(content, "\n");
  }

  // ---------------------------------------------------------------------------
  // Properties

  /** After the add mode, some line is the declaration of a non-empty key, whether it replaced a match or was inserted. */
  lemma WithDeclarationDeclares(lines: seq<string>, key: string)
    requires lines != [] && key != ""
    ensures Declaration(key) in WithDeclaration(lines, key)
  {
    var r := WithDeclaration(lines, key);
    match FirstMatch(lines, DeclPattern(key))
    case Some(i) =>
      assert r[i] == Declaration(key);
    case None =>
      assert r[|lines| - 1] == Declaration(key);
  }

  /** The initial content is read back as the opening marker and the closing brace. */
  lemma InitialLines()
    ensures ScanLines(InitialContent) == [Marker, "}"]
  {
    assert InitialContent == Terminated([Marker, "}"]);
    assert PlainLine(Marker) && PlainLine("}");
    ScanTerminated([Marker, "}"]);
  }

  /** Adding a key to a missing or malformed file leaves the wrapper block holding that one declaration. */
  lemma SelfHealingAdd(file: Option<string>, key: string)
    requires key != ""
    requires file.None? || !Contains(file.value, Marker)
    ensures EditedLines(file, key, false) == [Marker, Declaration(key), "}"]
  {
    assert EnsureStructure(file) == InitialContent;
    InitialLines();
    AddToEmptyBlock(key);
  }

  /** The opening marker and the closing brace declare nothing. */
  lemma FrameHasNoDeclaration(key: string)
    ensures !Contains(Marker, DeclPattern(key)) && !Contains("}", DeclPattern(key))
  {
    var pattern := DeclPattern(key);
    assert 'x' in pattern && 'x' !in Marker;
    MissingCharNotContained(Marker, pattern, 'x');
    BraceHasNoDeclaration(key);
  }

  lemma BraceHasNoDeclaration(key: string)
    ensures !Contains("}", DeclPattern(key))
  {
    var pattern := DeclPattern(key);
    assert 'x' in pattern && 'x' !in "}";
    MissingCharNotContained("}", pattern, 'x');
  }

  /** The empty block mentions no key. */
  lemma EmptyBlockUnmatched(key: string)
    ensures Unmatched([Marker, "}"], key)
  {
    FrameHasNoDeclaration(key);
  }

  lemma AddToEmptyBlock(key: string)
    requires key != ""
    ensures WithDeclaration([Marker, "}"], key) == [Marker, Declaration(key), "}"]
  {
    EmptyBlockUnmatched(key);
    UpsertUnmatched([Marker, "}"], key);
  }

  /** The declaration of an upper-case key contains that key's pattern. */
  lemma DeclarationMatchesUpperKey(key: string)
    requires ToUpper(key) == key
    ensures Contains(Declaration(key), DeclPattern(key))
  {
    var d := Declaration(key);
    var p := DeclPattern(key);
    assert d == "  " + p + ": string;";
    assert d[2..2 + |p|] == p;
    assert OccursAt(d, p, 2);
  }

  /** After adding an unmatched key, the inserted declaration is the first line to mention the key, when it mentions it at all. */
  lemma InsertedIsFirstMatch(lines: seq<string>, key: string)
    requires lines != [] && key != "" && Unmatched(lines, key)
    requires Contains(Declaration(key), DeclPattern(key))
    ensures FirstMatchIs(WithDeclaration(lines, key), key, |lines| - 1)
  {
    var once := WithDeclaration(lines, key);
    var n := |lines| - 1;
    UpsertUnmatched(lines, key);
    assert once[n] == Declaration(key);
    forall j | 0 <= j < n ensures !Contains(once[j], DeclPattern(key)) {
      assert once[j] == lines[j];
    }
  }

  /**
    For an upper-case key that no line mentions yet, adding it twice leaves
    one declaration: the second call finds the line the first one wrote.
  */
  lemma UpsertUpperKeyIdempotent(lines: seq<string>, key: string)
    requires lines != [] && key != "" && ToUpper(key) == key
    requires Unmatched(lines, key)
    ensures WithDeclaration(WithDeclaration(lines, key), key) == WithDeclaration(lines, key)
  {
    var once := WithDeclaration(lines, key);
    var n := |lines| - 1;
    assert FirstMatchIs(once, key, n) by {
      DeclarationMatchesUpperKey(key);
      InsertedIsFirstMatch(lines, key);
    }
    UpsertAtFirstMatch(once, key, n);
    assert once[n := Declaration(key)] == once;
  }

  /**
    Adding an upper-case key no line mentions and removing it again gives
    back the lines, when they end with the closing brace.
  */
  lemma UpsertThenRemove(lines: seq<string>, key: string)
    requires lines != [] && lines[|lines| - 1] == "}" && key != "" && ToUpper(key) == key
    requires Unmatched(lines, key)
    ensures WithoutDeclaration(WithDeclaration(lines, key), key) == lines
  {
    var once := WithDeclaration(lines, key);
    var n := |lines| - 1;
    assert FirstMatchIs(once, key, n) by {
      DeclarationMatchesUpperKey(key);
      InsertedIsFirstMatch(lines, key);
    }
    RemoveAtFirstMatch(once, key, n);
    assert once[..n] == lines[..n] && once[n + 1..] == ["}"] by {
      UpsertUnmatched(lines, key);
      assert once == lines[..n] + [Declaration(key), "}"];
    }
    assert lines == lines[..n] + [lines[n]];
  }

  /**
    The match is on the key as given, while the declaration is written
    upper-cased: a key whose own declaration does not contain its pattern
    (any key with a lower-case letter, say) is appended again on every add.
  */
  lemma UpsertUnmatchedKeyDuplicates(lines: seq<string>, key: string)
    requires lines != [] && key != "" && Unmatched(lines, key)
    requires !Contains(Declaration(key), DeclPattern(key))
    ensures WithDeclaration(WithDeclaration(lines, key), key)
            == lines[..|lines| - 1] + [Declaration(key), Declaration(key), "}"]
  {
    var once := WithDeclaration(lines, key);
    var n := |lines| - 1;
    UpsertUnmatched(lines, key);
    InsertedUnmatched(lines, key);
    UpsertUnmatched(once, key);
    assert once[..|once| - 1] == lines[..n] + [Declaration(key)];
  }

  /** Inserting a declaration that does not mention its own key leaves the key unmentioned. */
  lemma InsertedUnmatched(lines: seq<string>, key: string)
    requires lines != [] && key != "" && Unmatched(lines, key)
    requires !Contains(Declaration(key), DeclPattern(key))
    ensures Unmatched(lines[..|lines| - 1] + [Declaration(key), "}"], key)
  {
    var once := lines[..|lines| - 1] + [Declaration(key), "}"];
    var n := |lines| - 1;
    BraceHasNoDeclaration(key);
    forall j | 0 <= j < |once| ensures !Contains(once[j], DeclPattern(key)) {
      if j < n {
        assert once[j] == lines[j];
      } else if j == n {
        assert once[j] == Declaration(key);
      } else {
        assert once[j] == "}";
      }
    }
  }

  /**
    A key with a lower-case ASCII letter (at offset `i`), which upper-casing
    therefore changes, is declared twice when added twice to the empty block.
  */
  lemma LowerCaseKeyAddedTwice(key: string, i: nat)
    requires i < |key| && IsLower(key[i])
    ensures WithDeclaration(WithDeclaration([Marker, "}"], key), key)
            == [Marker, Declaration(key), Declaration(key), "}"]
  {
    AddToEmptyBlock(key);
    SecondAddDuplicates(key, i);
  }

  /** A block declaring such a key mentions it nowhere, so adding it again inserts a second declaration. */
  lemma SecondAddDuplicates(key: string, i: nat)
    requires i < |key| && IsLower(key[i])
    ensures WithDeclaration([Marker, Declaration(key), "}"], key)
            == [Marker, Declaration(key), Declaration(key), "}"]
  {
    var once := [Marker, Declaration(key), "}"];
    DeclaredBlockUnmatched(key, i);
    UpsertUnmatched(once, key);
    assert once[..2] == [Marker, Declaration(key)];
  }

  lemma DeclaredBlockUnmatched(key: string, i: nat)
    requires i < |key| && IsLower(key[i])
    ensures Unmatched([Marker, Declaration(key), "}"], key)
  {
    var block := [Marker, Declaration(key), "}"];
    var pattern := DeclPattern(key);
    forall j | 0 <= j < |block| ensures !Contains(block[j], pattern) {
      if j == 0 {
        assert !Contains(Marker, pattern) by { FrameHasNoDeclaration(key); }
      } else if j == 1 {
        assert !Contains(Declaration(key), pattern) by { OwnDeclarationUnmatched(key, i); }
      } else {
        assert !Contains("}", pattern) by { BraceHasNoDeclaration(key); }
      }
    }
  }

  /** In its own declaration a key's pattern can only start where "export" does, at offset 2. */
  lemma DeclarationOccurrences(key: string)
    ensures forall i :: OccursAt(Declaration(key), DeclPattern(key), i) ==> i == 2
  {
    var d := Declaration(key);
    var p := DeclPattern(key);
    var head := "  export const ";
    assert d == head + ToUpper(key) + ": string;";
    forall i | OccursAt(d, p, i) ensures i == 2 {
      assert d[i] == d[i..i + |p|][0] == 'e';
      assert i <= 11 && d[i] == head[i];
    }
  }

  /**
    The pattern is built from the key as given and the declaration from the
    upper-cased key, so a key that upper-casing changes never matches its
    own declaration.
  */
  lemma OwnDeclarationUnmatched(key: string, i: nat)
    requires i < |key| && IsLower(key[i])
    ensures !Contains(Declaration(key), DeclPattern(key))
  {
    assert ToUpper(key)[i] != key[i];
    var d := Declaration(key);
    var p := DeclPattern(key);
    DeclarationOccurrences(key);
    assert d == "  export const " + ToUpper(key) + ": string;";
    assert d[15..15 + |key|] == ToUpper(key);
    assert d[15..15 + |key|] == d[2..2 + |p|][13..];
    assert p[13..] == key;
    assert !OccursAt(d, p, 2);
  }

  /** The declaration of any name that starts with an upper-case key contains that key's pattern. */
  lemma DeclarationMatchesPrefixKey(key: string, suffix: string)
    requires ToUpper(key) == key
    ensures Contains(Declaration(key + suffix), DeclPattern(key))
  {
    var d := Declaration(key + suffix);
    var p := DeclPattern(key);
    ToUpperAppend(key, suffix);
    assert d == "  " + p + ToUpper(suffix) + ": string;";
    assert d[2..2 + |p|] == p;
    assert OccursAt(d, p, 2);
  }

  /**
    Adding an upper-case key to a file whose first declaration names that
    key followed by more characters (API before API_URL) overwrites that
    declaration instead of adding a line.
  */
  lemma ShorterKeyOverwritesLongerOne(key: string, suffix: string)
    requires ToUpper(key) == key
    ensures WithDeclaration([Marker, Declaration(key + suffix), "}"], key)
            == [Marker, Declaration(key), "}"]
  {
    var lines := [Marker, Declaration(key + suffix), "}"];
    FrameHasNoDeclaration(key);
    DeclarationMatchesPrefixKey(key, suffix);
    UpsertAtFirstMatch(lines, key, 1);
  }

  /**
    The init step calls the add mode with an empty key, whose pattern
    "export const " matches every declaration: the first one is rewritten
    to declare an empty name, "  export const : string;".
  */
  lemma EmptyKeyRewritesFirstDeclaration(name: string)
    ensures WithDeclaration([Marker, Declaration(name), "}"], "")
            == [Marker, Declaration(""), "}"]
  {
    assert "" + name == name;
    ShorterKeyOverwritesLongerOne("", name);
  }

  /**
    In any file, init's empty-key add rewrites the first line that contains
    "export const " (every declaration does) to declare an empty name.
  */
  lemma EmptyKeyRewritesFirstMatch(lines: seq<string>, i: nat)
    requires FirstMatchIs(lines, "", i)
    ensures WithDeclaration(lines, "") == lines[i := "  export const : string;"]
  {
    UpsertAtFirstMatch(lines, "", i);
    assert Declaration("") == "  export const : string;";
  }

  /** A declaration is one line, ending with ';'. */
  lemma DeclarationPlain(key: string)
    requires '\n' !in key
    ensures PlainLine(Declaration(key)) && Declaration(key) != []
  {
    var decl := Declaration(key);
    assert forall c :: c in ToUpper(key) ==> c != '\n';
    assert decl == "  export const " + ToUpper(key) + ": string;";
    assert decl[|decl| - 1] == ';';
  }

  /** The add mode keeps every line free of '\n' and of a trailing '\r', and keeps the last line non-empty. */
  lemma WithDeclarationPlain(lines: seq<string>, key: string)
    requires lines != [] && '\n' !in key
    requires forall j :: 0 <= j < |lines| ==> PlainLine(lines[j])
    requires lines[|lines| - 1] != []
    ensures var r := WithDeclaration(lines, key);
            r != [] && r[|r| - 1] != [] && forall j :: 0 <= j < |r| ==> PlainLine(r[j])
  {
    var decl := Declaration(key);
    DeclarationPlain(key);
    var r := WithDeclaration(lines, key);
    match FirstMatch(lines, DeclPattern(key))
    case Some(i) =>
      assert r == lines[i := decl];
      assert forall j :: 0 <= j < |r| ==> r[j] == decl || r[j] == lines[j];
    case None =>
      if key != "" {
        assert PlainLine("}");
        assert r == lines[..|lines| - 1] + [decl, "}"];
        assert forall j :: 0 <= j < |r| ==> r[j] == decl || r[j] == "}" || r[j] == lines[j];
      }
  }

  /**
    What the add mode writes is read back as the edited lines by the next
    call, so successive adds see each other's work, provided the file's
    lines carry no stray '\r' and its last line is not empty.
  */
  lemma AddedDtsReadsBack(file: Option<string>, key: string)
    requires '\n' !in key
    requires forall j :: 0 <= j < |ScanLines(EnsureStructure(file))| ==> PlainLine(ScanLines(EnsureStructure(file))[j])
    requires ScanLines(EnsureStructure(file))[|ScanLines(EnsureStructure(file))| - 1] != []
    ensures ScanLines(UpdatedDts(file, key, false)) == EditedLines(file, key, false)
  {
    var lines := ScanLines(EnsureStructure(file));
    StructuredLinesNonEmpty(file);
    WithDeclarationPlain(lines, key);
    ScanJoin(EditedLines(file, key, false));
  }
}
