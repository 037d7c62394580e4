/**
  The `.env` store: a map from variable names to values, read from and
  written to a plain `KEY=value` text file.
*/
module Dotenv {
  import opened Text

  const ExpoPrefix := "EXPO_PUBLIC_"

  /** Expo only exposes variables whose names carry the public prefix; the test is case-sensitive. */
  function EnsureExpoPrefix(key: string): (r: string)
    ensures ExpoPrefix <= r
    ensures r == key <==> ExpoPrefix <= key
    ensures r == key || r == ExpoPrefix + key
  {
    if !(ExpoPrefix <= key) then ExpoPrefix + key else key
  }

  lemma EnsureExpoPrefixIdempotent(key: string)
    ensures EnsureExpoPrefix(EnsureExpoPrefix(key)) == EnsureExpoPrefix(key)
  {
  }

  // ---------------------------------------------------------------------------
  // Parsing

  /**
    The entry one line of a `.env` file contributes: none for an empty line,
    a line starting with '#' (tested before any trimming) or a line without
    '='; otherwise the trimmed text before the first '=' and the trimmed
    text after it.
  */
  function ParseLine(line: string): (e: Option<(string, string)>)
    ensures e.Some? <==> line != "" && !("#" <= line) && '=' in line
  {
    if "#" <= line || line == "" then None
    else
      match IndexOf(line, '=')
      case None => None
      case Some(i) => Some((TrimSpace(line[..i]), TrimSpace(line[i + 1..])))
  }

  /** The entry of a line is split at its first '='. */
  lemma ParseLineAt(line: string, i: nat)
    requires line != "" && !("#" <= line)
    requires i < |line| && line[i] == '=' && '=' !in line[..i]
    ensures ParseLine(line) == Some((TrimSpace(line[..i]), TrimSpace(line[i + 1..])))
  {
    IndexOfAt(line, '=', i);
  }

  /** `line` is a line that sets `key`. */
  ghost predicate Defines(line: string, key: string) {
    ParseLine(line).Some? && ParseLine(line).value.0 == key
  }

  /** The variables a sequence of lines sets, each line in turn overwriting what came before. */
  function ParseLines(lines: seq<string>): map<string, string>
  {
    if lines == [] then map[]
    else
      var vars := ParseLines(lines[..|lines| - 1]);
      var entry := ParseLine(lines[|lines| - 1]);
      if entry.Some? then vars[entry.value.0 := entry.value.1] else vars
  }

  /** The variables held by the text of a `.env` file, as LoadEnvFile reads them. */
  function ParseEnv(text: string): (vars: map<string, string>)
    ensures forall k :: k in vars ==> SafeValue(vars[k]) && (!("#" <= k) ==> SafeKey(k))
  {
    var lines := ScanLines(text);
    assert forall k :: k in ParseLines(lines) ==> SafeValue(ParseLines(lines)[k]) && (!("#" <= k) ==> SafeKey(k)) by {
      forall k | k in ParseLines(lines) ensures SafeValue(ParseLines(lines)[k]) && (!("#" <= k) ==> SafeKey(k)) {
        ParsedVariablesSafe(lines, k);
      }
    }
    ParseLines(lines)
  }

  /** A key is present after parsing exactly when some line sets it. */
  lemma {:induction false} ParseLinesKeys(lines: seq<string>, key: string)
    ensures key in ParseLines(lines) <==> exists j :: 0 <= j < |lines| && Defines(lines[j], key)
  {
    if lines != [] {
      var n := |lines| - 1;
      var init := lines[..n];
      ParseLinesKeys(init, key);
      assert forall j :: 0 <= j < n ==> init[j] == lines[j];
      if !Defines(lines[n], key) {
        assert key in ParseLines(lines) <==> key in ParseLines(init);
      }
    }
  }

  /** The value of a key is the one given by the last line that sets it. */
  lemma {:induction false} ParseLinesLastWins(lines: seq<string>, j: nat)
    requires j < |lines| && ParseLine(lines[j]).Some?
    requires forall j' :: j < j' < |lines| ==> !Defines(lines[j'], ParseLine(lines[j]).value.0)
    ensures ParseLine(lines[j]).value.0 in ParseLines(lines)
    ensures ParseLines(lines)[ParseLine(lines[j]).value.0] == ParseLine(lines[j]).value.1
  {
    var n := |lines| - 1;
    if j < n {
      var init := lines[..n];
      assert init[j] == lines[j];
      assert !Defines(lines[n], ParseLine(lines[j]).value.0);
      ParseLinesLastWins(init, j);
    }
  }

  /**
    LoadEnvFile reads the file line by line into a new store. `onDisk` is
    the file's text, or None when it does not exist, in which case Go creates
    it empty; `disk` is the file's text afterwards.
  */
  method LoadEnvFile(path: string, onDisk: Option<string>) returns (e: DotenvFile, disk: string)
    ensures fresh(e)
    ensures disk == Existing(onDisk)
    ensures e.path == path && e.variables == ParseEnv(disk)
  {
    disk := Existing(onDisk);
    e := new DotenvFile(path);
    var lines := ScanLines(disk);
    var i := 0;
    while i < |lines|
      invariant 0 <= i <= |lines|
      invariant e.path == path
      invariant e.variables == ParseLines(lines[..i])
    {
      var line := lines[i];
      if "#" <= line || line == "" {
        assert ParseLines(lines[..i + 1]) == e.variables by {
          assert lines[..i + 1][..i] == lines[..i];
        }
        i := i + 1;
        continue;
      }
      match IndexOf(line, '=') {
        case None =>
          assert ParseLines(lines[..i + 1]) == e.variables by {
            assert lines[..i + 1][..i] == lines[..i];
          }
        case Some(p) =>
          var key, value := TrimSpace(line[..p]), TrimSpace(line[p + 1..]);
          assert ParseLines(lines[..i + 1]) == e.variables[key := value] by {
            assert lines[..i + 1][..i] == lines[..i];
          }
          e.variables := e.variables[key := value];
      }
      i := i + 1;
    }
    assert lines[..i] == lines;
  }

  // ---------------------------------------------------------------------------
  // Serialising

  /** `order` lists every key of `keys` exactly once. */
  ghost predicate IsEnumeration(order: seq<string>, keys: set<string>) {
    && (forall i, j :: 0 <= i < j < |order| ==> order[i] != order[j])
    && (forall k :: k in order <==> k in keys)
  }

  /** The `key=value` line SaveEnvFile writes for an entry. */
  function EntryLine(key: string, value: string): (line: string)
    ensures '=' !in key ==> IndexOf(line, '=') == Some(|key|) && line[..|key|] == key && line[|key| + 1..] == value
  {
    var line := key + "=" + value;
    assert line[..|key|] == key && line[|key|] == '=';
    assert '=' !in key ==> IndexOf(line, '=') == Some(|key|) by {
      if '=' !in key {
        IndexOfAt(line, '=', |key|);
      }
    }
    line
  }

  /** The lines for the keys of `vars`, in the order `order` visits them. */
  function EntryLines(vars: map<string, string>, order: seq<string>): (lines: seq<string>)
    requires forall k :: k in order ==> k in vars
    ensures |lines| == |order|
    ensures forall i :: 0 <= i < |order| ==> lines[i] == EntryLine(order[i], vars[order[i]])
  {
    seq(|order|, i requires 0 <= i < |order| => EntryLine(order[i], vars[order[i]]))
  }

  /** The text SaveEnvFile writes when Go's map iteration visits the keys in `order`. */
  function Render(vars: map<string, string>, order: seq<string>): (text: string)
    requires forall k :: k in order ==> k in vars
    ensures SafeVariables(vars) ==> ScanLines(text) == EntryLines(vars, order)
  {
    assert SafeVariables(vars) ==> ScanLines(Terminated(EntryLines(vars, order))) == EntryLines(vars, order) by {
      if SafeVariables(vars) {
        EntryLinesPlain(vars, order);
        ScanTerminated(EntryLines(vars, order));
      }
    }
    Terminated(EntryLines(vars, order))
  }

  lemma RenderAppend(vars: map<string, string>, order: seq<string>, key: string)
    requires forall k :: k in order ==> k in vars
    requires key in vars
    ensures Render(vars, order + [key]) == Render(vars, order) + EntryLine(key, vars[key]) + "\n"
  {
    var line := EntryLine(key, vars[key]);
    assert EntryLines(vars, order + [key]) == EntryLines(vars, order) + [line];
    TerminatedAppend(EntryLines(vars, order), [line]);
    assert Terminated([line]) == line + "\n" + Terminated([]);
  }

  // ---------------------------------------------------------------------------
  // Round trip

  /** A key that survives a save and a load: no '=', no newline, no leading '#', nothing to trim. */
  ghost predicate SafeKey(key: string) {
    '=' !in key && '\n' !in key && !("#" <= key) && TrimSpace(key) == key
  }

  /** A value that survives a save and a load: no newline and nothing to trim. */
  ghost predicate SafeValue(value: string) {
    '\n' !in value && TrimSpace(value) == value
  }

  ghost predicate SafeVariables(vars: map<string, string>) {
    forall k :: k in vars ==> SafeKey(k) && SafeValue(vars[k])
  }

  /** The line written for a safe entry parses back to that entry. */
  lemma ParseEntryLine(key: string, value: string)
    requires SafeKey(key) && SafeValue(value)
    ensures PlainLine(EntryLine(key, value))
    ensures ParseLine(EntryLine(key, value)) == Some((key, value))
  {
    var line := key + "=" + value;
    assert line[..|key|] == key;
    assert line[|key| + 1..] == value;
    assert line[|key|] == '=';
    assert PlainLine(line) by {
      if value == [] {
        assert line[|line| - 1] == '=';
      } else {
        assert line[|line| - 1] == value[|value| - 1];
      }
    }
    assert !("#" <= line) by {
      if key == [] { assert line[0] == '='; } else { assert line[0] == key[0]; }
    }
    ParseLineAt(line, |key|);
  }

  /** Keeping the entries of the keys in `order` is keeping those before its last key, and then the last one. */
  lemma RestrictLast(vars: map<string, string>, order: seq<string>)
    requires order != [] && forall k :: k in order ==> k in vars
    ensures var n := |order| - 1;
            (map k | k in order :: vars[k]) == (map k | k in order[..n] :: vars[k])[order[n] := vars[order[n]]]
  {
    var n := |order| - 1;
    var m1 := map k | k in order :: vars[k];
    var m0 := (map k | k in order[..n] :: vars[k])[order[n] := vars[order[n]]];
    assert order == order[..n] + [order[n]];
    assert m1.Keys == m0.Keys;
  }

  /** Parsing one more line applies its entry, if it has one, on top of the earlier lines. */
  lemma ParseLinesSnoc(lines: seq<string>)
    requires lines != [] && ParseLine(lines[|lines| - 1]).Some?
    ensures var e := ParseLine(lines[|lines| - 1]).value;
            ParseLines(lines) == ParseLines(lines[..|lines| - 1])[e.0 := e.1]
  {
  }

  lemma {:induction false} ParseEntryLines(vars: map<string, string>, order: seq<string>)
    requires forall k :: k in order ==> k in vars && SafeKey(k) && SafeValue(vars[k])
    ensures ParseLines(EntryLines(vars, order)) == map k | k in order :: vars[k]
  {
    if order != [] {
      var n := |order| - 1;
      var lines := EntryLines(vars, order);
      var prefix := EntryLines(vars, order[..n]);
      assert lines[..n] == prefix;
      assert ParseLines(lines) == ParseLines(prefix)[order[n] := vars[order[n]]] by {
        ParseEntryLine(order[n], vars[order[n]]);
        ParseLinesSnoc(lines);
      }
      ParseEntryLines(vars, order[..n]);
      RestrictLast(vars, order);
    }
  }

  /**
    Saving and loading again gives back the same variables, whatever order
    the map iteration chose, when every key and value is safe.
  */
  lemma SaveLoadRoundTrip(vars: map<string, string>, order: seq<string>)
    requires IsEnumeration(order, vars.Keys)
    requires SafeVariables(vars)
    ensures ParseEnv(Render(vars, order)) == vars
  {
    EntryLinesPlain(vars, order);
    ScanTerminated(EntryLines(vars, order));
    ParseEntryLines(vars, order);
    RestrictToAllKeys(vars, order);
  }

  lemma EntryLinesPlain(vars: map<string, string>, order: seq<string>)
    requires forall k :: k in order ==> k in vars && SafeKey(k) && SafeValue(vars[k])
    ensures forall j :: 0 <= j < |order| ==> PlainLine(EntryLines(vars, order)[j])
  {
    forall j | 0 <= j < |order| ensures PlainLine(EntryLines(vars, order)[j]) {
      ParseEntryLine(order[j], vars[order[j]]);
    }
  }

  lemma RestrictToAllKeys(vars: map<string, string>, order: seq<string>)
    requires forall k :: k in order <==> k in vars
    ensures (map k | k in order :: vars[k]) == vars
  {
    var m := map k | k in order :: vars[k];
    assert m.Keys == vars.Keys;
  }

  /** Every value a load produces, and every key not starting with '#', is safe. */
  lemma {:induction false} ParsedVariablesSafe(lines: seq<string>, key: string)
    requires forall j :: 0 <= j < |lines| ==> '\n' !in lines[j]
    requires key in ParseLines(lines)
    ensures SafeValue(ParseLines(lines)[key])
    ensures !("#" <= key) ==> SafeKey(key)
  {
    var n := |lines| - 1;
    var line := lines[n];
    if Defines(line, key) {
      var i := IndexOf(line, '=').value;
      var k, v := TrimSpace(line[..i]), TrimSpace(line[i + 1..]);
      forall c | c in k ensures c != '=' && c != '\n' {
        TrimSpaceChars(line[..i], c);
      }
      forall c | c in v ensures c != '\n' {
        TrimSpaceChars(line[i + 1..], c);
        assert c in line;
      }
      TrimSpaceIdempotent(line[..i]);
      TrimSpaceIdempotent(line[i + 1..]);
    } else {
      assert forall j :: 0 <= j < n ==> lines[..n][j] == lines[j];
      ParsedVariablesSafe(lines[..n], key);
    }
  }

  /**
    Loading a file, saving it and loading it again gives the same variables,
    unless a key starts with '#': the comment test runs before trimming, so
    "  #A=1" loads as key "#A", which is written as a comment line.
  */
  lemma LoadSaveLoad(text: string, order: seq<string>)
    requires IsEnumeration(order, ParseEnv(text).Keys)
    requires forall k :: k in ParseEnv(text) ==> !("#" <= k)
    ensures ParseEnv(Render(ParseEnv(text), order)) == ParseEnv(text)
  {
    var vars := ParseEnv(text);
    forall k | k in vars ensures SafeKey(k) && SafeValue(vars[k]) {
      ParsedVariablesSafe(ScanLines(text), k);
    }
    SaveLoadRoundTrip(vars, order);
  }

  /** An indented '#' line is not a comment: "  #A=1" sets the key "#A". */
  lemma IndentedHashLineParsed()
    ensures ParseLine("  #A=1") == Some(("#A", "1"))
  {
    var line := "  #A=1";
    assert TrimSpace("  #A") == "#A" by {
      assert TrimLeft("  #A") == TrimLeft(" #A") == TrimLeft("#A") == "#A";
    }
    assert TrimSpace("1") == "1";
    assert line[..4] == "  #A" && line[5..] == "1";
    ParseLineAt(line, 4);
  }

  /** Saving the key "#A" writes a line the next load takes for a comment, so the key is lost. */
  lemma HashKeyLostOnReload()
    ensures ParseEnv(Render(map["#A" := "1"], ["#A"])) == map[]
  {
    var lines := EntryLines(map["#A" := "1"], ["#A"]);
    assert lines[0] == "#A" + "=" + "1";
    assert "#" <= lines[0];
    assert PlainLine(lines[0]) by {
      assert lines[0] == ['#', 'A', '=', '1'];
    }
    ScanTerminated(lines);
    assert lines[..0] == [];
  }

  // ---------------------------------------------------------------------------
  // The store

  /** DotenvFile: the path of a `.env` file and the variables read from it. */
  class DotenvFile {
    var path: string
    var variables: map<string, string>

    constructor (path: string)
      ensures this.path == path && variables == map[]
    {
      this.path := path;
      variables := map[];
    }

    /** Sets the upper-cased key; every other entry, including `key` itself when it is not upper-case, is kept. */
    method AddOrUpdateKey(key: string, value: string)
      modifies this
      ensures path == old(path)
      ensures variables == old(variables)[ToUpper(key) := value]
    {
      var upper := ToUpper(key);
      variables := variables[upper := value];
    }

    /** Deletes exactly `key`, without case normalisation; an absent key leaves the map as it was. */
    method RemoveKey(key: string)
      modifies this
      ensures path == old(path)
      ensures variables == old(variables) - {key}
    {
      variables := variables - {key};
    }

    /** The keys, each once, in the order Go's map iteration happens to choose. */
    method ListKeys() returns (keys: seq<string>)
      ensures IsEnumeration(keys, variables.Keys)
      ensures |keys| == |variables|
    {
      keys := [];
      var rest := variables.Keys;
      while rest != {}
        invariant rest <= variables.Keys
        invariant IsEnumeration(keys, variables.Keys - rest)
        invariant |keys| + |rest| == |variables.Keys|
        decreases rest
      {
        var k :| k in rest;
        keys := keys + [k];
        rest := rest - {k};
      }
    }

    /**
      The text SaveEnvFile writes: one `key=value` line per entry, each
      ended by '\n', in the iteration order `order`.
    */
    method SaveEnvFile() returns (text: string, ghost order: seq<string>)
      ensures IsEnumeration(order, variables.Keys)
      ensures text == Render(variables, order)
      ensures SafeVariables(variables) ==> ParseEnv(text) == variables
    {
      text, order := "", [];
      var rest := variables.Keys;
      while rest != {}
        invariant rest <= variables.Keys
        invariant IsEnumeration(order, variables.Keys - rest)
        invariant text == Render(variables, order)
        decreases rest
      {
        var k :| k in rest;
        RenderAppend(variables, order, k);
        text := text + EntryLine(k, variables[k]) + "\n";
        order := order + [k];
        rest := rest - {k};
      }
      if SafeVariables(variables) {
        SaveLoadRoundTrip(variables, order);
      }
    }
  }
}
