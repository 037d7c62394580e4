/**
  The `create-hook` command: it normalises the hook name, writes a hook
  file and a type file, and appends export lines to two barrel files. The
  file system is a map from path to text; paths are joined with "/" and
  not cleaned.
*/
module Hooks {
  import opened Text

  /** The hook directory used when only a name is given. */
  const DefaultHookDir := "./src/lib/hooks"

  /** Where type files go, whatever the hook directory. */
  const TypesDir := "./src/lib/types/hooks"

  /** The type barrel, named outright rather than joined. */
  const TypeBarrelPath := "./src/lib/types/hooks/index.ts"

  // ---------------------------------------------------------------------------
  // Names

  /** ensureUsePrefix: a name that does not start with "use" gets "use" in front of its title-cased form. */
  function EnsureUsePrefix(name: string): (hook: string)
    ensures "use" <= hook
    ensures "use" <= name ==> hook == name
    ensures !("use" <= name) ==> hook == "use" + Title(name) && |hook| == |name| + 3
  {
    if "use" <= name then name else "use" + Title(name)
  }

  lemma EnsureUsePrefixIdempotent(name: string)
    ensures EnsureUsePrefix(EnsureUsePrefix(name)) == EnsureUsePrefix(name)
  {
  }

  /** toUpperCamelCase is strings.Title: the first letter of each word is upper-cased, the rest is kept. */
  function ToUpperCamelCase(s: string): (r: string)
    ensures |r| == |s|
    ensures forall i :: 0 <= i < |s| && (i == 0 || IsSeparator(s[i - 1])) ==> r[i] == UpperChar(s[i])
    ensures forall i :: 0 < i < |s| && !IsSeparator(s[i - 1]) ==> r[i] == s[i]
  {
    Title(s)
  }

  /** The TypeScript type of a hook. */
  function TypeName(hook: string): string {
    "I" + ToUpperCamelCase(hook)
  }

  /**
    A hook's type name is IUse followed by the rest of the hook's name,
    title-cased: a character after a separator is upper-cased and every
    other one is kept, so useFoo gives IUseFoo but use-foo gives IUse-Foo.
  */
  lemma TypeNameOfHook(hook: string)
    requires "use" <= hook
    ensures "IUse" <= TypeName(hook)
    ensures |TypeName(hook)| == |hook| + 1
    ensures forall k :: 3 <= k < |hook| ==>
      TypeName(hook)[k + 1] == if IsSeparator(hook[k - 1]) then UpperChar(hook[k]) else hook[k]
  {
    var t := ToUpperCamelCase(hook);
    assert t[0] == UpperChar('u') == 'U';
    assert !IsSeparator(hook[0]) && !IsSeparator(hook[1]);
    assert t[1] == 's' && t[2] == 'e';
  }

  /** A name given without the prefix is title-cased behind it, word by word: foo bar becomes useFoo Bar. */
  lemma PrefixedNameTitled(name: string)
    requires !("use" <= name) && name != []
    ensures EnsureUsePrefix(name)[3] == UpperChar(name[0])
    ensures EnsureUsePrefix(name)[3..] == Title(name)
  {
  }

  /** useFoo has the type IUseFoo. */
  lemma UseFooTypeName()
    ensures TypeName("useFoo") == "IUseFoo"
  {
    var name := "useFoo";
    var t := ToUpperCamelCase(name);
    assert t[0] == UpperChar(name[0]) == 'U';
    assert !IsSeparator(name[0]) && t[1] == name[1];
    assert !IsSeparator(name[1]) && t[2] == name[2];
    assert !IsSeparator(name[2]) && t[3] == name[3];
    assert !IsSeparator(name[3]) && t[4] == name[4];
    assert !IsSeparator(name[4]) && t[5] == name[5];
    assert t == "UseFoo";
  }

  /** A separator inside an already prefixed name starts a new word: use-foo has the type IUse-Foo. */
  lemma UseDashFooTypeName()
    ensures TypeName("use-foo") == "IUse-Foo"
  {
    var name := "use-foo";
    var t := ToUpperCamelCase(name);
    assert t[0] == UpperChar(name[0]) == 'U';
    assert !IsSeparator(name[0]) && t[1] == name[1];
    assert !IsSeparator(name[1]) && t[2] == name[2];
    assert !IsSeparator(name[2]) && t[3] == name[3];
    assert IsSeparator(name[3]) && t[4] == UpperChar(name[4]) == 'F';
    assert !IsSeparator(name[4]) && t[5] == name[5];
    assert !IsSeparator(name[5]) && t[6] == name[6];
    assert t == "Use-Foo";
  }

  // ---------------------------------------------------------------------------
  // Paths and contents

  /** The directory argument, or the default one when only the name was given. */
  function HookDir(args: seq<string>): (dir: string)
    ensures |args| > 1 ==> dir == args[1]
    ensures |args| <= 1 ==> dir == DefaultHookDir
  {
    if |args| > 1 then args[1] else DefaultHookDir
  }

  /** The hook file: `<hook>.tsx` in the hook directory; the hook's name can be read back from it. */
  function HookFilePath(dir: string, hook: string): (path: string)
    ensures |path| == |dir| + |hook| + 5 && path[..|dir|] == dir
    ensures path[|dir| + 1..|path| - 4] == hook
  {
    var path := dir + "/" + hook + ".tsx";
    assert path[|dir| + 1..|path| - 4] == hook;
    path
  }

  /** The type file: `<hook>.type.ts` in the types directory, whatever the hook directory. */
  function TypeFilePath(hook: string): (path: string)
    ensures |path| == |TypesDir| + |hook| + 9 && path[..|TypesDir|] == TypesDir
    ensures path[|TypesDir| + 1..|path| - 8] == hook
  {
    var path := TypesDir + "/" + hook + ".type.ts";
    assert path[|TypesDir| + 1..|path| - 8] == hook;
    path
  }

  /** The hook barrel: `index.ts` in the hook directory. */
  function HookBarrelPath(dir: string): (path: string)
    ensures |path| == |dir| + 9 && path[..|dir|] == dir
  {
    dir + "/index.ts"
  }

  /** The lines of the hook file: it imports the hook's type and exports a hook of that type. */
  function HookFileLines(hook: string): seq<string> {
    var t := TypeName(hook);
    [ "import { " + t + " } from \"@src/lib/types/hooks\";",
      "",
      "export const " + hook + ": " + t + " = () => {",
      "\t// Your hook logic here",
      "\treturn {};",
      "};" ]
  }

  /** The lines of the type file: props and return-value interfaces, and the hook's function type over them. */
  function TypeFileLines(hook: string): seq<string> {
    var t := TypeName(hook);
    [ "interface " + t + "Props {}",
      "interface " + t + "ReturnValue {}",
      "",
      "export type " + t + " = ({}: " + t + "Props) => " + t + "ReturnValue;" ]
  }

  /** Every line of a generated file ends with "\n". */
  function HookFileContent(hook: string): string {
    Terminated(HookFileLines(hook))
  }

  function TypeFileContent(hook: string): string {
    Terminated(TypeFileLines(hook))
  }

  /** The line appended to the hook barrel: for a one-line name, exactly one newline-ended line. */
  function HookExport(hook: string): (text: string)
    ensures text != [] && text[|text| - 1] == '\n'
    ensures '\n' !in hook ==> '\n' !in text[..|text| - 1]
  {
    var line := "export * from \"./" + hook + "\";";
    assert (line + "\n")[..|line|] == line;
    line + "\n"
  }

  /** The line appended to the type barrel: for a one-line name, exactly one newline-ended line. */
  function TypeExport(hook: string): (text: string)
    ensures text != [] && text[|text| - 1] == '\n'
    ensures '\n' !in hook ==> '\n' !in text[..|text| - 1]
  {
    var line := "export * from \"./" + hook + ".type\";";
    assert (line + "\n")[..|line|] == line;
    line + "\n"
  }

  /** Upper-casing cannot create a line break. */
  lemma TypeNameSingleLine(hook: string)
    requires '\n' !in hook
    ensures '\n' !in TypeName(hook)
  {
    forall i | 0 <= i < |hook| ensures ToUpperCamelCase(hook)[i] != '\n' {
      assert hook[i] != '\n' && UpperChar(hook[i]) != '\n';
      if i > 0 && !IsSeparator(hook[i - 1]) {
        assert ToUpperCamelCase(hook)[i] == hook[i];
      } else {
        assert ToUpperCamelCase(hook)[i] == UpperChar(hook[i]);
      }
    }
  }

  /** A one-line text followed by a one-line text that does not end with '\r' is a plain line. */
  lemma PlainParts(a: string, b: string)
    requires '\n' !in a && '\n' !in b && b != [] && b[|b| - 1] != '\r'
    ensures PlainLine(a + b)
  {
    assert (a + b)[|a + b| - 1] == b[|b| - 1];
  }

  /** Read line by line, the hook file is its six lines. */
  lemma HookFileReadsBack(hook: string)
    requires '\n' !in hook
    ensures ScanLines(HookFileContent(hook)) == HookFileLines(hook)
  {
    var lines := HookFileLines(hook);
    assert forall j :: 0 <= j < |lines| ==> PlainLine(lines[j]) by {
      var t := TypeName(hook);
      TypeNameSingleLine(hook);
      PlainParts("import { " + t, " } from \"@src/lib/types/hooks\";");
      PlainParts("export const " + hook + ": " + t, " = () => {");
    }
    ScanTerminated(lines);
  }

  /** Read line by line, the type file is its four lines. */
  lemma TypeFileReadsBack(hook: string)
    requires '\n' !in hook
    ensures ScanLines(TypeFileContent(hook)) == TypeFileLines(hook)
  {
    var lines := TypeFileLines(hook);
    assert forall j :: 0 <= j < |lines| ==> PlainLine(lines[j]) by {
      var t := TypeName(hook);
      TypeNameSingleLine(hook);
      PlainParts("interface " + t, "Props {}");
      PlainParts("interface " + t, "ReturnValue {}");
      PlainParts("export type " + t + " = ({}: " + t + "Props) => " + t, "ReturnValue;");
    }
    ScanTerminated(lines);
  }

  // ---------------------------------------------------------------------------
  // The file system

  /** The text of a file in `files`, or "" when there is none. */
  function Content(files: map<string, string>, path: string): string {
    if path in files then files[path] else ""
  }

  /** A file opened for appending (and created if missing) after `text` is written to it. */
  function Appended(files: map<string, string>, path: string, text: string): (r: map<string, string>)
    ensures r.Keys == files.Keys + {path}
    ensures r[path] == Content(files, path) + text
    ensures forall p :: p in files && p != path ==> r[p] == files[p]
  {
    files[path := Content(files, path) + text]
  }

  /** The files once create-hook has run with a (prefixed) hook name and a directory: every step in order. */
  function AfterCreateHook(files: map<string, string>, hook: string, dir: string): map<string, string> {
    var withHook := files[HookFilePath(dir, hook) := HookFileContent(hook)];
    var withType := withHook[TypeFilePath(hook) := TypeFileContent(hook)];
    var typeBarrel := Appended(withType, TypeBarrelPath, TypeExport(hook));
    Appended(typeBarrel, HookBarrelPath(dir), HookExport(hook))
  }

  /** Appending is not idempotent: the barrel update run twice leaves the export line twice. */
  lemma AppendTwice(files: map<string, string>, path: string, text: string)
    ensures Appended(Appended(files, path, text), path, text)[path] == Content(files, path) + text + text
  {
  }

  /** The three kinds of path create-hook writes never coincide, whatever the directory. */
  lemma PathsDistinct(hook: string, dir: string)
    requires "use" <= hook
    ensures HookFilePath(dir, hook) != TypeFilePath(hook)
    ensures HookFilePath(dir, hook) != TypeBarrelPath && HookFilePath(dir, hook) != HookBarrelPath(dir)
    ensures TypeFilePath(hook) != TypeBarrelPath && TypeFilePath(hook) != HookBarrelPath(dir)
  {
    var h := HookFilePath(dir, hook);
    var t := TypeFilePath(hook);
    var b := HookBarrelPath(dir);
    assert h[|h| - 1] == 'x';
    assert t[|t| - 1] == 's' && b[|b| - 1] == 's' && TypeBarrelPath[|TypeBarrelPath| - 1] == 's';
    assert t[|t| - 8] == '.' && b[|b| - 8] == 'i';
    assert |t| > |TypeBarrelPath|;
  }

  /**
    After create-hook both generated files hold their contents, each barrel
    keeps what it had and gains the export line at its end (the type
    barrel's line first when the two barrels are the same file), and no
    other file changes.
  */
  lemma CreateHookEffect(files: map<string, string>, hook: string, dir: string)
    requires "use" <= hook
    ensures var r := AfterCreateHook(files, hook, dir);
            && r[HookFilePath(dir, hook)] == HookFileContent(hook)
            && r[TypeFilePath(hook)] == TypeFileContent(hook)
            && (HookBarrelPath(dir) != TypeBarrelPath ==>
                  r[TypeBarrelPath] == Content(files, TypeBarrelPath) + TypeExport(hook)
                  && r[HookBarrelPath(dir)] == Content(files, HookBarrelPath(dir)) + HookExport(hook))
            && (HookBarrelPath(dir) == TypeBarrelPath ==>
                  r[TypeBarrelPath] == Content(files, TypeBarrelPath) + TypeExport(hook) + HookExport(hook))
            && r.Keys == files.Keys + {HookFilePath(dir, hook), TypeFilePath(hook), TypeBarrelPath, HookBarrelPath(dir)}
            && forall p :: p in files && p !in {HookFilePath(dir, hook), TypeFilePath(hook), TypeBarrelPath, HookBarrelPath(dir)} ==> r[p] == files[p]
  {
    PathsDistinct(hook, dir);
    WriteWriteAppendAppend(files, HookFilePath(dir, hook), HookFileContent(hook), TypeFilePath(hook), TypeFileContent(hook),
                           TypeBarrelPath, TypeExport(hook), HookBarrelPath(dir), HookExport(hook));
  }

  /**
    Two writes to distinct files followed by two appends to files other than
    those two: the shape of create-hook, whatever the paths and texts.
  */
  lemma WriteWriteAppendAppend(files: map<string, string>, p1: string, t1: string, p2: string, t2: string,
                               p3: string, t3: string, p4: string, t4: string)
    requires p1 != p2 && p1 != p3 && p1 != p4 && p2 != p3 && p2 != p4
    ensures var r := Appended(Appended(files[p1 := t1][p2 := t2], p3, t3), p4, t4);
            && r[p1] == t1 && r[p2] == t2
            && (p4 != p3 ==> r[p3] == Content(files, p3) + t3 && r[p4] == Content(files, p4) + t4)
            && (p4 == p3 ==> r[p3] == Content(files, p3) + t3 + t4)
            && r.Keys == files.Keys + {p1, p2, p3, p4}
            && forall p :: p in files && p !in {p1, p2, p3, p4} ==> r[p] == files[p]
  {
    var written := files[p1 := t1][p2 := t2];
    assert Content(written, p3) == Content(files, p3);
    assert p4 != p3 ==> Content(Appended(written, p3, t3), p4) == Content(files, p4);
  }

  /** The project tree create-hook writes into. */
  class Workspace {
    var files: map<string, string>

    constructor (files: map<string, string>)
      ensures this.files == files
    {
      this.files := files;
    }

    /** os.WriteFile: the file is created or overwritten. */
    method WriteFile(path: string, text: string)
      modifies this
      ensures files == old(files)[path := text]
    {
      files := files[path := text];
    }

    /** A file opened with O_APPEND|O_CREATE and written once. */
    method AppendToFile(path: string, text: string)
      modifies this
      ensures files == Appended(old(files), path, text)
    {
      var current := if path in files then files[path] else "";
      files := files[path := current + text];
    }

    /** createHookFile: the hook file in the hook directory. */
    method CreateHookFile(hook: string, dir: string)
      modifies this
      ensures files == old(files)[HookFilePath(dir, hook) := HookFileContent(hook)]
    {
      WriteFile(HookFilePath(dir, hook), HookFileContent(hook));
    }

    /** createTypeFile: the type file, then the type barrel's export line. */
    method CreateTypeFile(hook: string)
      modifies this
      ensures files == Appended(old(files)[TypeFilePath(hook) := TypeFileContent(hook)], TypeBarrelPath, TypeExport(hook))
    {
      WriteFile(TypeFilePath(hook), TypeFileContent(hook));
      UpdateTypeBarrelFile(hook);
    }

    /** updateHookBarrelFile: the hook's export line appended to index.ts in the hook directory. */
    method UpdateHookBarrelFile(dir: string, hook: string)
      modifies this
      ensures files == Appended(old(files), HookBarrelPath(dir), HookExport(hook))
    {
      AppendToFile(HookBarrelPath(dir), HookExport(hook));
    }

    /** updateTypeBarrelFile: the type file's export line appended to the type barrel. */
    method UpdateTypeBarrelFile(hook: string)
      modifies this
      ensures files == Appended(old(files), TypeBarrelPath, TypeExport(hook))
    {
      AppendToFile(TypeBarrelPath, TypeExport(hook));
    }

    /**
      create-hook with its command-line arguments. The command line parser
      refuses a call without a name, and nothing is written then.
    */
    method CreateHook(args: seq<string>) returns (hook: string, dir: string)
      modifies this
      ensures args == [] ==> files == old(files)
      ensures args != [] ==> hook == EnsureUsePrefix(args[0]) && dir == HookDir(args)
      ensures args != [] ==> files == AfterCreateHook(old(files), hook, dir)
    {
      if |args| == 0 {
        return "", "";
      }
      dir := HookDir(args);
      hook := EnsureUsePrefix(args[0]);
      CreateHookFile(hook, dir);
      CreateTypeFile(hook);
      UpdateHookBarrelFile(dir, hook);
    }
  }
}
