# mirorim-cli environment and hook scaffolding, in Dafny

This project models the text and key-value handling of `mirorim-cli`, a
command-line helper for React Native projects:

- **`.env` store** (module `Dotenv`, `dotenv.dfy`). The line parser of
  `LoadEnvFile`, the `key=value` serialiser of `SaveEnvFile`, and the
  `DotenvFile` object whose `AddOrUpdateKey`, `RemoveKey` and `ListKeys`
  act on its variable map in place. `EnsureExpoPrefix` is here too.
- **`env.d.ts` declaration editor** (module `EnvDts`, `envdts.dfy`).
  `EnsureCorrectEnvDTSStructure` and `UpdateEnvDTS`. The two edit loops are
  methods proved equal to the functions `WithoutDeclaration` and
  `WithDeclaration` over a sequence of lines.
- **The `env` command group** (module `EnvCmd`, `envcmd.dfy`). A `Project`
  object holds the project type, the "environment initialised" flag and
  the texts of `.env` and `env.d.ts`. It has one method per handler: init,
  add, update, remove and destroy. Prompt answers are parameters.
- **`create-hook`** (module `Hooks`, `hooks.dfy`). `ensureUsePrefix`,
  `toUpperCamelCase`, the generated paths and file contents, and a
  `Workspace` object whose map of files the barrel updates append to.
- **The project-name validator** (module `Validators`, `validators.dfy`).
- **Go library behaviour the above relies on** (module `Text`, `text.dfy`).
  `strings.Contains`, `TrimSpace`, `ToUpper`, `Title` and `Join`, and the
  line splitting of `bufio.Scanner`. All of these are restricted to ASCII.

A file that may be missing is an `Option<string>`; `None` means the file
does not exist. Go's map iteration order is not fixed. Saving the `.env`
and listing its keys are therefore specified for *some* enumeration of the
keys: a ghost sequence holding each key exactly once.

Behaviour of the code worth noting:

- The `env.d.ts` editor does not keep one declaration line per key. It
  finds a key's line by substring, using the key as given, but writes the
  declaration with the key upper-cased. Adding `API` therefore overwrites
  an `API_URL` declaration (`EnvDts.ShorterKeyOverwritesLongerOne`). A key
  with a lower-case ASCII letter never matches its own declaration. Adding
  it twice to the empty block declares it twice
  (`EnvDts.LowerCaseKeyAddedTwice`). More generally, adding such a key twice
  to lines that do not mention it declares it twice
  (`EnvDts.UpsertUnmatchedKeyDuplicates`).
- `env init` on a bare project calls the add mode with an empty key. Its
  pattern `export const ` matches any declaration, so init rewrites the
  first existing declaration in any file (`EnvDts.EmptyKeyRewritesFirstMatch`,
  `EnvDts.EmptyKeyRewritesFirstDeclaration`).
- The `ProjectConfig` record in `internal/config/config.go` has no
  `EnvInitialized` field, although the env code reads and writes one.
  The flag is modelled as a field of `EnvCmd.Project`.

## Model

| member | source | states |
|---|---|---|
| `Dotenv.EnsureExpoPrefix` | internal/dotenv/dotenv.go:22-27 | The result always starts with `EXPO_PUBLIC_`. It equals the key exactly when the key already starts with it, and is otherwise the prefix followed by the key. |
| `Dotenv.EnsureExpoPrefixIdempotent` | internal/dotenv/dotenv.go:22-27 | Applying the prefixing twice is the same as applying it once. |
| `Dotenv.ParseLine` | internal/dotenv/dotenv.go:56-64 | A line yields an entry exactly when it is non-empty, does not start with `#`, and contains `=`. |
| `Dotenv.ParseLineAt` | internal/dotenv/dotenv.go:61-67 | For such a line, the entry is the trimmed text before the first `=` mapped to the trimmed text after it. |
| `Dotenv.ParseLines` | internal/dotenv/dotenv.go:52-68 | The map the scanning loop builds, line by line. Its properties are `Dotenv.ParseLinesKeys` and `Dotenv.ParseLinesLastWins`. |
| `Dotenv.ParseEnv` | internal/dotenv/dotenv.go:52-68 | Every loaded value is trimmed and has no line break. Every loaded key that does not start with `#` can be saved and read back. |
| `Dotenv.ParseLinesKeys` | internal/dotenv/dotenv.go:52-68 | A key is loaded exactly when some line defines it. |
| `Dotenv.ParseLinesLastWins` | internal/dotenv/dotenv.go:52-68 | A key's loaded value comes from the last line that defines it. |
| `Dotenv.LoadEnvFile` | internal/dotenv/dotenv.go:30-71 | The scanning loop leaves the parse of the file's lines in the map. A missing file is created empty and loads as no variables. |
| `Dotenv.DotenvFile.AddOrUpdateKey` | internal/dotenv/dotenv.go:93-96 | Sets the upper-cased key to the value. Every other entry is kept, including the key as given when it differs. |
| `Dotenv.DotenvFile.RemoveKey` | internal/dotenv/dotenv.go:99-101 | Deletes exactly the given key, with no case folding. An absent key changes nothing. |
| `Dotenv.DotenvFile.ListKeys` | internal/dotenv/dotenv.go:104-110 | Returns every key exactly once, in some order; its length is the map size. |
| `Dotenv.DotenvFile.SaveEnvFile` | internal/dotenv/dotenv.go:74-90 | Writes one `key=value` line, ended by a newline, per entry, following some enumeration of the keys. When every key and value is safe, the written text loads back as the same map. |
| `Dotenv.EntryLine` | internal/dotenv/dotenv.go:83 | For a key without `=`, the first `=` of the saved line sits right after the key. The text before it is the key and the text after it is the value. |
| `Dotenv.Render` | internal/dotenv/dotenv.go:82-84 | When every key and value is safe, the saved text is scanned back as exactly one `key=value` line per key, in the enumeration order. |
| `Dotenv.ParseEntryLine` | internal/dotenv/dotenv.go:83 | A saved line of a safe key and value parses back to that key and value. |
| `Dotenv.ParseEntryLines` | internal/dotenv/dotenv.go:52-68 | Parsing the saved lines for listed keys of the map, each with a safe key and value, gives the map restricted to the listed keys. Keys may be listed more than once. |
| `Dotenv.SaveLoadRoundTrip` | internal/dotenv/dotenv.go:74-90 | Saving a map whose keys and values the format can hold, then loading the result, gives back the same map, whatever the order. |
| `Dotenv.ParsedVariablesSafe` | internal/dotenv/dotenv.go:61-67 | For lines as the scanner yields them (none holds a line break), loaded values are trimmed and free of line breaks. Loaded keys also contain no `=`, so they are safe unless they start with `#`. |
| `Dotenv.LoadSaveLoad` | internal/dotenv/dotenv.go:30-90 | Loading, saving and loading again gives the first load's map, unless some key starts with `#`. |
| `Dotenv.IndentedHashLineParsed` | internal/dotenv/dotenv.go:56-67 | The comment test runs before trimming: `  #A=1` defines the key `#A`. |
| `Dotenv.HashKeyLostOnReload` | internal/dotenv/dotenv.go:56 | Such a key is saved as `#A=1`, which the next load skips as a comment. |
| `EnvDts.DeclPattern` | internal/dotenv/dotenv.go:239-248 | The text that marks a line as a key's declaration: `export const ` followed by the key as given, not upper-cased. `EnvDts.OwnDeclarationUnmatched` and `EnvDts.DeclarationMatchesPrefixKey` state the consequences. |
| `EnvDts.Declaration` | internal/dotenv/dotenv.go:250-258 | The declaration line written for a key, with the key upper-cased. `EnvDts.DeclarationPlain` states that it is one non-empty line ending in `;`. |
| `EnvDts.EnsureStructure` | internal/dotenv/dotenv.go:173-210 | Afterwards the file contains the `declare module "@env" {` marker. A file that already contains it is unchanged. Otherwise the file becomes the empty block. |
| `EnvDts.EnsureStructureIdempotent` | internal/dotenv/dotenv.go:173-210 | A second structure check changes nothing. |
| `EnvDts.StructuredLinesNonEmpty` | internal/dotenv/dotenv.go:229-233 | After the check the scanner reads at least one line, so the insertion at line 258 has a last line to replace. |
| `EnvDts.FirstMatch` | internal/dotenv/dotenv.go:238-254 | Returns the index of the first line containing the pattern, or none when no line does. |
| `EnvDts.FirstMatchAt` | internal/dotenv/dotenv.go:238-254 | A line that contains the pattern, with no earlier line containing it, is the first match. |
| `EnvDts.WithoutDeclaration` | internal/dotenv/dotenv.go:236-243 | Remove mode drops at most one line and adds none: the result is a sub-multiset of the input, one line shorter or the same length. |
| `EnvDts.WithDeclaration` | internal/dotenv/dotenv.go:244-261 | Add mode, on lines that are non-empty whenever the key is, keeps the number of lines or adds exactly one, and it adds one only for a non-empty key. |
| `EnvDts.RemoveAtFirstMatch` | internal/dotenv/dotenv.go:238-243 | Remove mode deletes the first line that contains `export const <key>` and keeps the others in order. |
| `EnvDts.RemoveUnmatched` | internal/dotenv/dotenv.go:238-243 | When no line contains the pattern, remove mode leaves the lines unchanged. |
| `EnvDts.UpsertAtFirstMatch` | internal/dotenv/dotenv.go:246-253 | Add mode replaces the first line that contains `export const <key>` with the upper-cased declaration, leaving every other line alone. |
| `EnvDts.UpsertUnmatched` | internal/dotenv/dotenv.go:255-260 | With no matching line and a non-empty key, add mode on non-empty lines replaces the last line with the declaration followed by `}`. With an empty key it leaves the lines unchanged. |
| `EnvDts.RemoveDeclaration` | internal/dotenv/dotenv.go:238-243 | The remove loop computes `WithoutDeclaration`: the first matching line is deleted, as `RemoveAtFirstMatch` and `RemoveUnmatched` spell out. |
| `EnvDts.UpsertDeclaration` | internal/dotenv/dotenv.go:246-260 | On lines that are non-empty whenever the key is, the add-or-update loop computes `WithDeclaration`: the first matching line is overwritten, or the last line is replaced by the declaration followed by `}`, as `UpsertAtFirstMatch` and `UpsertUnmatched` spell out. |
| `EnvDts.EditedLines` | internal/dotenv/dotenv.go:229-261 | The lines after the structure check and the edit. After an add of a non-empty key, one of them is that key's declaration. |
| `EnvDts.UpdatedDts` | internal/dotenv/dotenv.go:229-264 | The text the final write puts in the file: the edited lines joined by newlines. `EnvDts.AddedDtsReadsBack` shows it reads back as those lines. |
| `EnvDts.UpdateEnvDts` | internal/dotenv/dotenv.go:213-270 | The repaired text contains the marker. The written text is the edited lines of the repaired file joined by newlines, with no final newline. |
| `EnvDts.WithDeclarationDeclares` | internal/dotenv/dotenv.go:244-260 | After an add with a non-empty key to a non-empty list of lines, some line is that key's declaration. |
| `EnvDts.InitialLines` | internal/dotenv/dotenv.go:185-187 | The initial content is read back as exactly two lines: the marker and `}`. |
| `EnvDts.AddToEmptyBlock` | internal/dotenv/dotenv.go:255-259 | Adding a non-empty key to the empty block inserts its declaration between the marker and `}`. |
| `EnvDts.SelfHealingAdd` | internal/dotenv/dotenv.go:173-260 | Adding a non-empty key to a missing file, or to one without the marker, gives the block holding that one declaration. |
| `EnvDts.DeclarationMatchesUpperKey` | internal/dotenv/dotenv.go:248-250 | The declaration written for an upper-case key contains that key's search pattern. |
| `EnvDts.InsertedIsFirstMatch` | internal/dotenv/dotenv.go:247-258 | When a non-empty key that no line mentions is inserted into non-empty lines, and its declaration contains its own pattern, the inserted declaration is the first line to mention it. |
| `EnvDts.InsertedUnmatched` | internal/dotenv/dotenv.go:247-258 | When a non-empty key that no line mentions is inserted into non-empty lines, and its declaration does not contain its own pattern, the key is still mentioned by no line. |
| `EnvDts.UpsertUpperKeyIdempotent` | internal/dotenv/dotenv.go:244-260 | Adding a non-empty upper-case key that no line mentions to non-empty lines, twice, gives the same lines as adding it once. |
| `EnvDts.UpsertThenRemove` | internal/dotenv/dotenv.go:236-260 | For non-empty lines ending in `}`, adding a non-empty upper-case key that no line mentions and removing it again gives back the original lines. |
| `EnvDts.UpsertUnmatchedKeyDuplicates` | internal/dotenv/dotenv.go:244-260 | A non-empty key whose own declaration does not match its pattern, added twice to non-empty lines that do not mention it, is declared twice before `}`. |
| `EnvDts.DeclarationOccurrences` | internal/dotenv/dotenv.go:248-250 | Within a key's own declaration, the key's pattern can only start at offset 2, where `export` begins. |
| `EnvDts.OwnDeclarationUnmatched` | internal/dotenv/dotenv.go:248-250 | The pattern uses the raw key and the declaration the upper-cased one. So any key with a lower-case ASCII letter never matches its own declaration. |
| `EnvDts.DeclaredBlockUnmatched` | internal/dotenv/dotenv.go:185-258 | For such a key, no line of the block holding its declaration mentions the key. |
| `EnvDts.SecondAddDuplicates` | internal/dotenv/dotenv.go:244-260 | Adding such a key to the block that already declares it inserts a second declaration. |
| `EnvDts.LowerCaseKeyAddedTwice` | internal/dotenv/dotenv.go:244-260 | Any key with a lower-case ASCII letter, added twice to the empty block, is declared twice. |
| `EnvDts.FrameHasNoDeclaration` | internal/dotenv/dotenv.go:185-187 | Neither the marker line nor the closing brace matches any key's pattern. |
| `EnvDts.BraceHasNoDeclaration` | internal/dotenv/dotenv.go:258 | The closing brace line matches no key's pattern. |
| `EnvDts.EmptyBlockUnmatched` | internal/dotenv/dotenv.go:185-187 | The empty block mentions no key. |
| `EnvDts.DeclarationMatchesPrefixKey` | internal/dotenv/dotenv.go:248 | The declaration of a longer name matches the pattern of an upper-case key that is a prefix of it. |
| `EnvDts.ShorterKeyOverwritesLongerOne` | internal/dotenv/dotenv.go:247-253 | For any upper-case key, adding it to a block declaring the key followed by more text replaces that line instead of adding one: adding `API` overwrites an `API_URL` declaration. |
| `EnvDts.EmptyKeyRewritesFirstMatch` | internal/dotenv/dotenv.go:246-253 | In any file, the empty-key add of init rewrites the first line containing `export const ` to declare an empty name. |
| `EnvDts.EmptyKeyRewritesFirstDeclaration` | internal/dotenv/dotenv.go:156 | The empty-key call made by init rewrites the first declaration to declare an empty name. |
| `EnvDts.DeclarationPlain` | internal/dotenv/dotenv.go:250 | A declaration for a key without line breaks is one non-empty line ending in `;`. |
| `EnvDts.WithDeclarationPlain` | internal/dotenv/dotenv.go:244-260 | For a key without a line break and non-empty lines that are all free of line breaks and trailing carriage returns, with a non-empty last line, the add mode keeps every line so and keeps the last line non-empty. |
| `EnvDts.AddedDtsReadsBack` | internal/dotenv/dotenv.go:229-264 | The text written by an add is read back by the next call as the edited lines, provided the key has no line break, the repaired file's lines have no trailing carriage return, and its last line is not empty. Without the last condition an empty final line is lost on the next read. |
| `EnvCmd.CommandKey` | cmd/env.go:98-101 | In an Expo project the key a command uses carries the public prefix. Elsewhere it is the key as entered. |
| `EnvCmd.WithEntry` | cmd/env.go:105-111 | Add and update save the loaded variables with the upper-cased command key set to the value. Everything else is unchanged. |
| `EnvCmd.WithoutEntry` | cmd/env.go:266-270 | Remove saves the loaded variables without the command key, which is not upper-cased. |
| `EnvCmd.DtsAfter` | cmd/env.go:113-119 | Only bare projects touch `env.d.ts`. After the step the file exists. When the final write fails without touching the file, the file holds the marker. |
| `EnvCmd.Project.RunUpdateEnvDts` | internal/dotenv/dotenv.go:213-270 | The structure repair reaches the disk before the final write. The step reports failure exactly when that write fails. |
| `EnvCmd.Project.Init` | cmd/env.go:41-57 | An initialised project is left as it is. Otherwise `.env` exists afterwards. A non-bare project becomes initialised. A bare project becomes initialised only when tooling and the `env.d.ts` write both succeed, and its `env.d.ts` goes through the empty-key add. |
| `EnvCmd.Project.Add` | cmd/env.go:65-129 | Nothing changes unless initialised. A bare project's `env.d.ts` is updated before `.env` is saved. When that update fails, `.env` keeps its loaded text; otherwise `.env` holds the rendered `WithEntry` variables. |
| `EnvCmd.Project.Update` | cmd/env.go:136-212 | As add, for a selected key that is loaded. With no variables or no valid selection only the loaded `.env` remains. |
| `EnvCmd.Project.Remove` | cmd/env.go:219-288 | As update, with `WithoutEntry` and the remove mode of `env.d.ts`. |
| `EnvCmd.Project.Destroy` | cmd/env.go:297-324 | Nothing changes unless initialised. Otherwise `.env` is deleted, `env.d.ts` is also deleted for a bare project, and the flag is cleared. |
| `EnvCmd.ExpoStoredKeyPrefixed` | cmd/env.go:99-111 | In an Expo project every stored key starts with `EXPO_PUBLIC_` after upper-casing. |
| `EnvCmd.LowerCasePrefixDoubled` | cmd/env.go:99-111 | The prefix test is case-sensitive and comes before upper-casing, so `expo_public_x` is stored as `EXPO_PUBLIC_EXPO_PUBLIC_X`. |
| `EnvCmd.WithEntryReloads` | cmd/env.go:105-126 | The variables saved by add or update are loaded back unchanged when the new entry is safe and no key starts with `#`. |
| `EnvCmd.WithoutEntryReloads` | cmd/env.go:247-285 | The variables saved by remove are loaded back unchanged when no loaded key starts with `#`. |
| `EnvCmd.UpdateKeepsLowerCaseKey` | cmd/env.go:177-194 | Outside Expo projects, updating a loaded selected key that is not upper-case adds the upper-cased key with the new value and keeps the original entry with its old value. |
| `EnvCmd.ExpoRemoveKeepsUnprefixedKey` | cmd/env.go:260-270 | In an Expo project, removing a loaded selected key without the prefix deletes the prefixed key instead, so the selected one stays. |
| `EnvCmd.BareAddDeclares` | cmd/env.go:111-119 | After a successful bare add of a non-empty key, `env.d.ts` holds the edited lines joined by newlines, and the key's declaration is among those lines. |
| `Hooks.EnsureUsePrefix` | cmd/hooks.go:59-64 | The result starts with `use`. A name that already starts with `use` is returned unchanged; any other becomes `use` followed by its title-cased form. |
| `Hooks.EnsureUsePrefixIdempotent` | cmd/hooks.go:59-64 | Prefixing twice is the same as prefixing once. |
| `Hooks.PrefixedNameTitled` | cmd/hooks.go:61 | After the added `use`, the name's first letter is upper-cased and each of its words is title-cased. |
| `Hooks.ToUpperCamelCase` | cmd/hooks.go:67-69 | Keeps the length. Upper-cases the first character and every character after a separator, and keeps every other character. |
| `Hooks.TypeName` | cmd/hooks.go:82-85 | The hook's type name, `I` followed by the title-cased hook name. `Hooks.TypeNameOfHook` states what it holds. |
| `Hooks.TypeNameOfHook` | cmd/hooks.go:82-85 | For a prefixed hook, the type name is `IUse` followed by the rest of the name title-cased: a character after a separator is upper-cased and every other character is kept. The result is one character longer than the name. |
| `Hooks.UseDashFooTypeName` | cmd/hooks.go:66-69 | A separator inside a prefixed name starts a new word: `use-foo` has the type `IUse-Foo`. |
| `Hooks.UseFooTypeName` | cmd/hooks.go:66-69 | `useFoo` has the type `IUseFoo`. |
| `Hooks.HookDir` | cmd/hooks.go:21-24 | The directory argument when one is given, otherwise `./src/lib/hooks`. |
| `Hooks.TypeNameSingleLine` | cmd/hooks.go:82 | Title-casing a single-line name cannot introduce a line break. |
| `Hooks.HookFilePath` | cmd/hooks.go:79 | The hook file path starts with the directory, and the hook's name can be read back from its middle. |
| `Hooks.TypeFilePath` | cmd/hooks.go:103-109 | The type file path starts with `./src/lib/types/hooks`, whatever the hook directory, and the hook's name can be read back from its middle. |
| `Hooks.HookBarrelPath` | cmd/hooks.go:129 | The hook barrel is `index.ts` inside the hook directory: its path starts with the directory. |
| `Hooks.HookFileLines` | cmd/hooks.go:85-91 | The lines of the hook file. `Hooks.HookFileReadsBack` states what they hold. |
| `Hooks.TypeFileLines` | cmd/hooks.go:112-116 | The lines of the type file. `Hooks.TypeFileReadsBack` states what they hold. |
| `Hooks.HookFileContent` | cmd/hooks.go:85-91 | The hook file's text: its lines, each ended by a newline. `Hooks.HookFileReadsBack` reads it back. |
| `Hooks.TypeFileContent` | cmd/hooks.go:112-116 | The type file's text: its lines, each ended by a newline. `Hooks.TypeFileReadsBack` reads it back. |
| `Hooks.HookExport` | cmd/hooks.go:139 | The text appended to the hook barrel ends with a newline. For a one-line name it is exactly one line. |
| `Hooks.TypeExport` | cmd/hooks.go:156 | The text appended to the type barrel ends with a newline. For a one-line name it is exactly one line. |
| `Hooks.HookFileReadsBack` | cmd/hooks.go:85-91 | For a hook name without a line break, the hook file is exactly six newline-ended lines. It imports the hook's type and exports the hook with that type. |
| `Hooks.TypeFileReadsBack` | cmd/hooks.go:112-116 | For a hook name without a line break, the type file is exactly four newline-ended lines: the props and return-value interfaces, and the function type over them. |
| `Hooks.Appended` | cmd/hooks.go:131-141 | Appending creates the file when missing, keeps its previous text as a prefix, and changes no other file. |
| `Hooks.AppendTwice` | cmd/hooks.go:128-142 | The barrel update has no de-duplication: running it twice leaves the export line twice. |
| `Hooks.PathsDistinct` | cmd/hooks.go:79-146 | For a hook name starting with `use` and any directory, the hook file and the type file differ from each other and from both barrels. The two barrels are the same file when the directory is `./src/lib/types/hooks`. |
| `Hooks.AfterCreateHook` | cmd/hooks.go:27-48 | The files after create-hook's four steps in order. `Hooks.CreateHookEffect` states the result. |
| `Hooks.CreateHookEffect` | cmd/hooks.go:19-51 | For a hook name starting with `use` (create-hook always prefixes it), both generated files hold their contents afterwards. Each barrel keeps its text and gains its export line at the end, the type barrel first when the two coincide. No other file changes. |
| `Hooks.WriteWriteAppendAppend` | cmd/hooks.go:27-48 | Two writes to different files, then two appends to other files: each written file holds its text, and each appended file gains its texts in order. No other file changes. |
| `Hooks.Workspace.WriteFile` | cmd/hooks.go:94 | `os.WriteFile`: the file is created or overwritten with the text, and no other file changes. |
| `Hooks.Workspace.AppendToFile` | cmd/hooks.go:131-141 | The file's new text is its old text (empty if missing) followed by the written text. |
| `Hooks.Workspace.CreateHookFile` | cmd/hooks.go:72-95 | Writes the hook contents to `<dir>/<hook>.tsx`. |
| `Hooks.Workspace.CreateTypeFile` | cmd/hooks.go:98-125 | Writes the type contents to `./src/lib/types/hooks/<hook>.type.ts`, then appends to the type barrel. |
| `Hooks.Workspace.UpdateHookBarrelFile` | cmd/hooks.go:128-142 | Appends `export * from "./<hook>";` and a newline to `<dir>/index.ts`. |
| `Hooks.Workspace.UpdateTypeBarrelFile` | cmd/hooks.go:145-159 | Appends `export * from "./<hook>.type";` and a newline to `./src/lib/types/hooks/index.ts`. |
| `Hooks.Workspace.CreateHook` | cmd/hooks.go:18-51 | Without a name nothing is written. Otherwise the name is prefixed, the directory chosen, and the hook file, the type file with its barrel, and the hook barrel are written in that order. |
| `Validators.Message` | internal/utils/validators.go:12-18 | The text of each validation error is non-empty. |
| `Validators.MessagesDistinct` | internal/utils/validators.go:12-18 | The invalid-type and naming errors have different texts. |
| `Validators.MatchNameChars` | internal/utils/validators.go:16 | `[a-zA-Z0-9_-]+$` matches exactly the non-empty texts made only of name characters. |
| `Validators.MatchProjectName` | internal/utils/validators.go:16 | The pattern matches exactly the names that have at least two characters, an ASCII letter first, and name characters after it. |
| `Validators.ValidateProjectName` | internal/utils/validators.go:9-21 | A non-string answer gives the invalid-type error. A string is accepted (nil error) exactly when it is a valid name; every rejected string gives the same naming error. |
| `Validators.ShortNamesRejected` | internal/utils/validators.go:16-19 | The empty name and one-character names are rejected. |
| `Validators.SeparatorsNotFirst` | internal/utils/validators.go:16 | A name starting with `_` or `-` is rejected. Behind a letter, the same text is accepted exactly when it is made of name characters. |
| `Validators.NonAsciiRejected` | internal/utils/validators.go:16 | A name with any non-ASCII character is rejected. |
| `Validators.WellFormedAccepted` | internal/utils/validators.go:16-20 | A letter followed by one or more name characters is accepted. |
| `Text.Contains` | internal/dotenv/dotenv.go:239 | `strings.Contains`: true exactly when the pattern occurs at some position. |
| `Text.IndexOf` | internal/dotenv/dotenv.go:61 | The split point of `strings.SplitN(line, "=", 2)`: none exactly when the character is absent; otherwise a position holding it with no earlier occurrence. |
| `Text.DropCR` | internal/dotenv/dotenv.go:52-54 | The carriage-return removal of `bufio.ScanLines`: the line loses one final `\r` if it has one, and is otherwise unchanged. |
| `Text.TrimSpace` | internal/dotenv/dotenv.go:65-66 | `strings.TrimSpace`: neither end of the result is white space, and text with non-space ends is unchanged. `Text.TrimSpaceCut` states what is removed. |
| `Text.TrimLeftCut` | internal/dotenv/dotenv.go:65-66 | Trimming the front removes exactly a run of white space: the result is the rest of the input. |
| `Text.TrimRightCut` | internal/dotenv/dotenv.go:65-66 | Trimming the back removes exactly a run of white space: the result is the start of the input. |
| `Text.TrimSpaceCut` | internal/dotenv/dotenv.go:65-66 | The result is a middle part of the input, with only white space before and after it. |
| `Text.TrimSpaceIdempotent` | internal/dotenv/dotenv.go:65-66 | Trimming twice is trimming once. |
| `Text.ToUpper` | internal/dotenv/dotenv.go:94 | `strings.ToUpper`: each lower-case ASCII letter is upper-cased and every other character is kept. |
| `Text.Title` | cmd/hooks.go:68 | `strings.Title`: a character is upper-cased exactly when it comes first or follows a separator. |
| `Text.TitleIdempotent` | cmd/hooks.go:67-69 | Title-casing twice is title-casing once. |
| `Text.ScanLines` | internal/dotenv/dotenv.go:52-54 | The lines `bufio.Scanner` yields: none for empty text, and none contains a line break. |
| `Text.ScanTerminated` | internal/dotenv/dotenv.go:82-84 | Newline-ended lines without line breaks or trailing carriage returns are scanned back as exactly those lines. |
| `Text.Join` | internal/dotenv/dotenv.go:264 | `strings.Join`: no lines give the empty text, one line gives itself, and the first line always starts the result. `Text.ScanJoin` is its inverse. |
| `Text.ScanJoin` | internal/dotenv/dotenv.go:264 | Lines without line breaks or trailing carriage returns, joined by newlines, are scanned back as those lines when the last one is not empty. |

## Left out

- File-system errors. The only failure modelled is the final `env.d.ts` write, whose ordering with the `.env` save the source relies on. Also modelled is the success of `npm install` together with the Babel edit in `env init`. Failures to create, read or write `.env`, to save the config, or to get the working directory are not modelled.
- `installReactNativeDotenv`, `modifyBabelConfig` and the Babel JSON and JS edits. They run `npm` or rewrite JavaScript with regular expressions and JSON; init sees them only as a success flag.
- Loading and saving the project configuration (JSON). The project type and the "initialised" flag are fields of `EnvCmd.Project`.
- Interactive prompts. A cancelled key selection is a selection outside the listed keys. A cancelled key or value prompt in add is not modelled. Neither is a cancelled new-value prompt in update after a valid selection (cmd/env.go:184-188): there the command stops with only `.env` loaded. `EnvCmd.Project.Update` has no parameter for that cancellation; the same end state is reached only by passing a selection outside the listed keys.
- `EnvCmd.DtsAfter` and `EnvCmd.Project.RunUpdateEnvDts`: a failed final write is modelled as one that leaves the file as the structure check repaired it. `os.WriteFile` truncates the file before writing, so a real failure can leave `env.d.ts` empty or partly written; that outcome is not modelled.
- Printed messages and `os.Exit`.
- `filepath.Join` path cleaning. Paths are joined with `/` as given, so `./a` and `a` are different names in `Hooks.Workspace`.
- `os.MkdirAll`: directories are not modelled.
- Unicode. `ToUpper`, `TrimSpace` and `strings.Title` are modelled on ASCII only; other characters are left unchanged and are neither white space nor separators.
- The `bufio.Scanner` token-size limit: lines of any length are read.
- `EnvDts.UpsertDeclaration` and `EnvDts.WithDeclaration` require a non-empty line list for a non-empty key. With no lines the Go slice expression would panic, and the structure check rules that input out (`EnvDts.StructuredLinesNonEmpty`).
- `Dotenv.DotenvFile.SaveEnvFile` and `Dotenv.DotenvFile.ListKeys` state the order only as some enumeration of the keys, because Go map iteration order is unspecified.
