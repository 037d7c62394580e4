/**
  The `env` command group (init, add, update, remove, destroy) as a state
  machine over one project: its type, the "environment initialised" flag
  of its configuration, and the texts of its `.env` and `env.d.ts` files.
*/
module EnvCmd {
  import opened Text
  import opened Dotenv
  import opened EnvDts

  /** The `.env` file, relative to the project directory. */
  const EnvPath := ".env"

  /** The key a command works on: Expo projects force the public prefix onto the key that was entered or selected. */
  function CommandKey(projectType: string, key: string): (k: string)
    ensures projectType == "expo" ==> ExpoPrefix <= k && (k == key || k == ExpoPrefix + key)
    ensures projectType != "expo" ==> k == key
  {
    if projectType == "expo" then EnsureExpoPrefix(key) else key
  }

  /** The variables add and update save: the loaded ones with the upper-cased command key set to `value`. */
  function WithEntry(projectType: string, text: string, key: string, value: string): (vars: map<string, string>)
    ensures ToUpper(CommandKey(projectType, key)) in vars && vars[ToUpper(CommandKey(projectType, key))] == value
    ensures forall k :: k in ParseEnv(text) && k != ToUpper(CommandKey(projectType, key)) ==> k in vars && vars[k] == ParseEnv(text)[k]
    ensures vars.Keys == ParseEnv(text).Keys + {ToUpper(CommandKey(projectType, key))}
  {
    ParseEnv(text)[ToUpper(CommandKey(projectType, key)) := value]
  }

  /** The variables remove saves: the loaded ones without the command key, which is not upper-cased. */
  function WithoutEntry(projectType: string, text: string, key: string): (vars: map<string, string>)
    ensures CommandKey(projectType, key) !in vars
    ensures forall k :: k in ParseEnv(text) && k != CommandKey(projectType, key) ==> k in vars && vars[k] == ParseEnv(text)[k]
    ensures vars.Keys == ParseEnv(text).Keys - {CommandKey(projectType, key)}
  {
    ParseEnv(text) - {CommandKey(projectType, key)}
  }

  /**
    The env.d.ts file once a command has run UpdateEnvDTS (bare projects
    only): rewritten by the edit, or, when the final write fails, left as
    the structure check repaired it.
  */
  function DtsAfter(projectType: string, dts: Option<string>, key: string, isRemove: bool, dtsWriteOk: bool): (r: Option<string>)
    ensures projectType != "bare" ==> r == dts
    ensures projectType == "bare" ==> r.Some?
    ensures projectType == "bare" && !dtsWriteOk ==> Contains(r.value, Marker)
  {
    if projectType != "bare" then dts
    else if dtsWriteOk then Some(UpdatedDts(dts, key, isRemove))
    else Some(EnsureStructure(dts))
  }

  class Project {
    var projectType: string
    var envInitialized: bool
    var envFile: Option<string>
    var dtsFile: Option<string>

    /** A project as `mirorim-cli start` creates it: the environment not initialised, whatever files are already there. */
    constructor (projectType: string, envFile: Option<string>, dtsFile: Option<string>)
      ensures this.projectType == projectType && !envInitialized
      ensures this.envFile == envFile && this.dtsFile == dtsFile
    {
      this.projectType := projectType;
      this.envInitialized := false;
      this.envFile := envFile;
      this.dtsFile := dtsFile;
    }

    /**
      The env.d.ts step of a command on a bare project; false when the final
      write failed and the command stops there.
    */
    method RunUpdateEnvDts(key: string, isRemove: bool, dtsWriteOk: bool) returns (ok: bool)
      modifies this
      ensures projectType == old(projectType) && envInitialized == old(envInitialized) && envFile == old(envFile)
      ensures dtsFile == DtsAfter("bare", old(dtsFile), key, isRemove, dtsWriteOk)
      ensures ok == dtsWriteOk
    {
      var repaired, written := UpdateEnvDts(dtsFile, key, isRemove);
      dtsFile := Some(repaired);
      if !dtsWriteOk {
        return false;
      }
      dtsFile := Some(written);
      return true;
    }

    /**
      env init. Nothing happens when the environment is already initialised.
      Otherwise an empty .env is created if there is none; a bare project
      then gets react-native-dotenv and its Babel plugin (`toolingOk` says
      whether both steps succeed) and env.d.ts through the add mode with an
      empty key; the flag is set only when every step succeeded.
    */
    method Init(toolingOk: bool, dtsWriteOk: bool)
      modifies this
      ensures projectType == old(projectType)
      ensures old(envInitialized) ==> envInitialized && envFile == old(envFile) && dtsFile == old(dtsFile)
      ensures !old(envInitialized) ==> envFile == Some(Existing(old(envFile)))
      ensures !old(envInitialized) && projectType != "bare" ==> envInitialized && dtsFile == old(dtsFile)
      ensures !old(envInitialized) && projectType == "bare" ==>
                envInitialized == (toolingOk && dtsWriteOk)
                && dtsFile == if toolingOk then DtsAfter(projectType, old(dtsFile), "", false, dtsWriteOk) else old(dtsFile)
    {
      if envInitialized {
        return;
      }
      if envFile.None? {
        envFile := Some("");
      }
      if projectType == "bare" {
        if !toolingOk {
          return;
        }
        var ok := RunUpdateEnvDts("", false, dtsWriteOk);
        if !ok {
          return;
        }
      }
      envInitialized := true;
    }

    /**
      env add. Refused unless initialised. The .env is loaded (created empty
      when missing), the key (prefixed in Expo projects) is set upper-cased,
      a bare project's env.d.ts is updated, and the .env is written back in
      some order of its keys unless the env.d.ts write failed.
    */
    method Add(key: string, value: string, dtsWriteOk: bool) returns (ghost order: seq<string>)
      modifies this
      ensures projectType == old(projectType) && envInitialized == old(envInitialized)
      ensures !old(envInitialized) ==> envFile == old(envFile) && dtsFile == old(dtsFile)
      ensures old(envInitialized) ==> dtsFile == DtsAfter(projectType, old(dtsFile), CommandKey(projectType, key), false, dtsWriteOk)
      ensures old(envInitialized) && projectType == "bare" && !dtsWriteOk ==> envFile == Some(Existing(old(envFile)))
      ensures old(envInitialized) && (projectType != "bare" || dtsWriteOk) ==>
                var vars := WithEntry(projectType, Existing(old(envFile)), key, value);
                IsEnumeration(order, vars.Keys) && envFile == Some(Render(vars, order))
    {
      order := [];
      if !envInitialized {
        return;
      }
      var k := CommandKey(projectType, key);
      var e, disk := LoadEnvFile(EnvPath, envFile);
      envFile := Some(disk);
      e.AddOrUpdateKey(k, value);
      if projectType == "bare" {
        var ok := RunUpdateEnvDts(k, false, dtsWriteOk);
        if !ok {
          return;
        }
      }
      var text;
      text, order := e.SaveEnvFile();
      envFile := Some(text);
    }

    /**
      env update. Refused unless initialised. The .env is loaded; with no
      variables, or when the selection is not one of the listed keys (the
      prompt was cancelled), the command stops there. Otherwise the selected
      key (prefixed in Expo projects) is set upper-cased to `value`, as in
      add.
    */
    method Update(selected: string, value: string, dtsWriteOk: bool) returns (ghost order: seq<string>)
      modifies this
      ensures projectType == old(projectType) && envInitialized == old(envInitialized)
      ensures !old(envInitialized) ==> envFile == old(envFile) && dtsFile == old(dtsFile)
      ensures old(envInitialized) && selected !in ParseEnv(Existing(old(envFile))) ==>
                envFile == Some(Existing(old(envFile))) && dtsFile == old(dtsFile)
      ensures old(envInitialized) && selected in ParseEnv(Existing(old(envFile))) ==>
                dtsFile == DtsAfter(projectType, old(dtsFile), CommandKey(projectType, selected), false, dtsWriteOk)
      ensures old(envInitialized) && selected in ParseEnv(Existing(old(envFile))) && projectType == "bare" && !dtsWriteOk ==>
                envFile == Some(Existing(old(envFile)))
      ensures old(envInitialized) && selected in ParseEnv(Existing(old(envFile))) && (projectType != "bare" || dtsWriteOk) ==>
                var vars := WithEntry(projectType, Existing(old(envFile)), selected, value);
                IsEnumeration(order, vars.Keys) && envFile == Some(Render(vars, order))
    {
      order := [];
      if !envInitialized {
        return;
      }
      var e, disk := LoadEnvFile(EnvPath, envFile);
      envFile := Some(disk);
      var keys := e.ListKeys();
      if |keys| == 0 || selected !in keys {
        return;
      }
      var k := CommandKey(projectType, selected);
      e.AddOrUpdateKey(k, value);
      if projectType == "bare" {
        var ok := RunUpdateEnvDts(k, false, dtsWriteOk);
        if !ok {
          return;
        }
      }
      var text;
      text, order := e.SaveEnvFile();
      envFile := Some(text);
    }

    /**
      env remove. As update, but the selected key (prefixed in Expo
      projects, not upper-cased) is deleted, and a bare project's env.d.ts
      loses its first line that mentions the key.
    */
    method Remove(selected: string, dtsWriteOk: bool) returns (ghost order: seq<string>)
      modifies this
      ensures projectType == old(projectType) && envInitialized == old(envInitialized)
      ensures !old(envInitialized) ==> envFile == old(envFile) && dtsFile == old(dtsFile)
      ensures old(envInitialized) && selected !in ParseEnv(Existing(old(envFile))) ==>
                envFile == Some(Existing(old(envFile))) && dtsFile == old(dtsFile)
      ensures old(envInitialized) && selected in ParseEnv(Existing(old(envFile))) ==>
                dtsFile == DtsAfter(projectType, old(dtsFile), CommandKey(projectType, selected), true, dtsWriteOk)
      ensures old(envInitialized) && selected in ParseEnv(Existing(old(envFile))) && projectType == "bare" && !dtsWriteOk ==>
                envFile == Some(Existing(old(envFile)))
      ensures old(envInitialized) && selected in ParseEnv(Existing(old(envFile))) && (projectType != "bare" || dtsWriteOk) ==>
                var vars := WithoutEntry(projectType, Existing(old(envFile)), selected);
                IsEnumeration(order, vars.Keys) && envFile == Some(Render(vars, order))
    {
      order := [];
      if !envInitialized {
        return;
      }
      var e, disk := LoadEnvFile(EnvPath, envFile);
      envFile := Some(disk);
      var keys := e.ListKeys();
      if |keys| == 0 || selected !in keys {
        return;
      }
      var k := CommandKey(projectType, selected);
      e.RemoveKey(k);
      if projectType == "bare" {
        var ok := RunUpdateEnvDts(k, true, dtsWriteOk);
        if !ok {
          return;
        }
      }
      var text;
      text, order := e.SaveEnvFile();
      envFile := Some(text);
    }

    /**
      env destroy. Refused unless initialised; otherwise the .env (and, in
      a bare project, env.d.ts) is deleted and the flag cleared.
    */
    method Destroy()
      modifies this
      ensures projectType == old(projectType) && !envInitialized
      ensures old(envInitialized) ==> envFile.None? && dtsFile == if projectType == "bare" then None else old(dtsFile)
      ensures !old(envInitialized) ==> envFile == old(envFile) && dtsFile == old(dtsFile)
    {
      if !envInitialized {
        return;
      }
      envFile := None;
      if projectType == "bare" {
        dtsFile := None;
      }
      envInitialized := false;
    }
  }

  // ---------------------------------------------------------------------------
  // Properties

  /** In an Expo project every key add or update stores carries the public prefix. */
  lemma ExpoStoredKeyPrefixed(key: string)
    ensures ExpoPrefix <= ToUpper(CommandKey("expo", key))
  {
    var k := CommandKey("expo", key);
    assert ToUpper(ExpoPrefix) == ExpoPrefix;
    ToUpperAppend(ExpoPrefix, k[|ExpoPrefix|..]);
    assert k == ExpoPrefix + k[|ExpoPrefix|..];
  }

  /**
    The prefix check is case-sensitive and runs before upper-casing: a key
    entered with a lower-case prefix (expo_public_x) is stored with the
    prefix twice (EXPO_PUBLIC_EXPO_PUBLIC_X).
  */
  lemma LowerCasePrefixDoubled(key: string, rest: string)
    requires ToUpper(key) == ExpoPrefix + rest && !(ExpoPrefix <= key)
    ensures ToUpper(CommandKey("expo", key)) == ExpoPrefix + ExpoPrefix + rest
  {
    assert ToUpper(ExpoPrefix) == ExpoPrefix;
    ToUpperAppend(ExpoPrefix, key);
  }

  /** The variables add and update save are read back by the next command, when the new entry is one the format can hold. */
  lemma WithEntryReloads(projectType: string, text: string, key: string, value: string, order: seq<string>)
    requires forall k :: k in ParseEnv(text) ==> !("#" <= k)
    requires SafeKey(ToUpper(CommandKey(projectType, key))) && SafeValue(value)
    requires IsEnumeration(order, WithEntry(projectType, text, key, value).Keys)
    ensures ParseEnv(Render(WithEntry(projectType, text, key, value), order)) == WithEntry(projectType, text, key, value)
  {
    var vars := WithEntry(projectType, text, key, value);
    forall k | k in vars ensures SafeKey(k) && SafeValue(vars[k]) {
      if k != ToUpper(CommandKey(projectType, key)) {
        ParsedVariablesSafe(ScanLines(text), k);
      }
    }
    SaveLoadRoundTrip(vars, order);
  }

  /** The variables remove saves are read back by the next command, when no loaded key starts with '#'. */
  lemma WithoutEntryReloads(projectType: string, text: string, key: string, order: seq<string>)
    requires forall k :: k in ParseEnv(text) ==> !("#" <= k)
    requires IsEnumeration(order, WithoutEntry(projectType, text, key).Keys)
    ensures ParseEnv(Render(WithoutEntry(projectType, text, key), order)) == WithoutEntry(projectType, text, key)
  {
    var vars := WithoutEntry(projectType, text, key);
    forall k | k in vars ensures SafeKey(k) && SafeValue(vars[k]) {
      ParsedVariablesSafe(ScanLines(text), k);
    }
    SaveLoadRoundTrip(vars, order);
  }

  /**
    Update upper-cases the selected key but does not delete it: a selected
    key with a lower-case letter keeps its old value next to the new
    upper-case entry.
  */
  lemma UpdateKeepsLowerCaseKey(projectType: string, text: string, selected: string, value: string)
    requires projectType != "expo" && selected in ParseEnv(text) && ToUpper(selected) != selected
    ensures selected in WithEntry(projectType, text, selected, value)
    ensures WithEntry(projectType, text, selected, value)[selected] == ParseEnv(text)[selected]
    ensures WithEntry(projectType, text, selected, value)[ToUpper(selected)] == value
  {
  }

  /**
    In an Expo project, removing a selected key that lacks the public
    prefix deletes the prefixed key instead, so the selected one stays.
  */
  lemma ExpoRemoveKeepsUnprefixedKey(text: string, selected: string)
    requires selected in ParseEnv(text) && !(ExpoPrefix <= selected)
    ensures selected in WithoutEntry("expo", text, selected)
    ensures WithoutEntry("expo", text, selected) == ParseEnv(text) - {ExpoPrefix + selected}
  {
    assert |ExpoPrefix + selected| != |selected|;
  }

  /** After a bare add or update whose env.d.ts write succeeds, the file's lines include the key's declaration. */
  lemma BareAddDeclares(dts: Option<string>, key: string)
    requires key != ""
    ensures Declaration(key) in EditedLines(dts, key, false)
    ensures DtsAfter("bare", dts, CommandKey("bare", key), false, true) == Some(Join(EditedLines(dts, key, false), "\n"))
  {
    StructuredLinesNonEmpty(dts);
  }
}
