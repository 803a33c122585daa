# Skills MCP server: a verified model of the skills manager

The server offers "skills", Markdown files with a YAML frontmatter header, to a
calling agent. The agent lists them, loads the ones it needs into its context,
and unloads them again. `SkillsManager` owns two dictionaries:

- `_available_skills` maps a skill name to its metadata. A directory scan
  rebuilds it.
- `_loaded_skills` maps the name of each loaded skill to a record. The record
  holds the content, the token count, the load time and the metadata.

This project models that manager and the tool functions over it:

- `text.dfy` (`Text`) holds the Python string operations the manager relies
  on: `startswith`, `split(sep, maxsplit)`, `strip`, `replace`, `title`, and
  `Path.stem`.
- `dicts.dfy` (`Dicts`) holds Python's insertion-ordered `dict`.
- `metadata.dfy` (`Metadata`) holds the frontmatter rules, the metadata
  defaults and the token estimate.
- `registry.dfy` (`Registry`) holds the outcome functions for scan, load and
  unload, and the token totals.
- `lifecycle.dfy` (`Lifecycle`) holds the per-skill load state machine as
  lemmas.
- `manager.dfy` (`Manager`) holds the `SkillsManager` class. Its methods change
  the two dictionaries in place and are proved against the outcome functions.
- `tools.dfy` (`Tools`) holds the tool functions `list_skills`, `load_skill`,
  `unload_skill`, `reload_skills_directory` and `get_loaded_skills_info`.

The filesystem is a value, `Directory(listing, files)`:

- `listing` is what `glob("*.md")` yields, in its order.
- `files` maps each existing file name to `Readable(text)` or `Unreadable`.

The YAML reader is a given function `YamlLoader`. It returns the typed
frontmatter fields, or `None` where the Python code would raise. The clock is
a `now` parameter.

Some behaviour of the code is easy to misread, and the model keeps it as written:

- A rescan keeps every loaded record, including records of skills it no longer
  finds. So loaded names need not be registered.
- The `unload_skill` tool reports an error for a name that is not loaded. It
  does not treat that as a no-op success.
- A skill's default name is its file stem.
- `already_loaded` results carry the existing record's token count and load
  time.
- There is no search engine, no second root and no collision diagnostic.

## Model

| member | source | states |
|---|---|---|
| `Text.Find` | mcp_Server.py:128 | the result is the leftmost occurrence at or after the start index; `None` means there is none |
| `Text.Split` | mcp_Server.py:128-130 | joining the parts with the separator gives back the text; there are at most maxsplit+1 parts; the cuts are at the leftmost occurrences: no occurrence of the separator starts inside a part before the last, even one running on into the next separator; with fewer parts, the last holds none either |
| `Text.Strip` | mcp_Server.py:133 | the result is a slice of the input with only whitespace outside it and no whitespace at either end |
| `Text.TrimIsUnique` | mcp_Server.py:133 | two trims of the same string are equal, so `strip()` is fully determined |
| `Text.StripIdempotent` | mcp_Server.py:133 | stripping twice equals stripping once |
| `Text.StartsWith` | mcp_Server.py:125 | the text starts with the prefix exactly when it is the prefix followed by the rest of the text |
| `Text.Replace` | mcp_Server.py:138 | each `-` becomes a space and every other character is kept |
| `Text.Title` | mcp_Server.py:138 | a letter is upper-cased at the start of a word and lower-cased elsewhere; other characters are unchanged; the length is unchanged |
| `Text.RFind` | mcp_Server.py:137 | the result is the last index of the character, or -1 when it does not occur |
| `Text.Stem` | mcp_Server.py:137 | a shorter stem is the name up to its last dot, which is neither the first nor the last character and is followed by no other dot; an unchanged name has no such dot |
| `Text.StemOfMarkdownName` | mcp_Server.py:204 | the stem of `<x>.md` is `x` for non-empty `x`, so a scan and a load name the same file |
| `Dicts.Empty` | mcp_Server.py:98-101 | `{}` is a well-formed dict with no keys and no entries |
| `Dicts.Put` | mcp_Server.py:224 | assignment keeps the dict well formed; a present key keeps its position and a new key is appended |
| `Dicts.Remove` | mcp_Server.py:250 | `del` removes exactly that key from the map and from the order, and keeps the order of the rest |
| `Dicts.DropAt` | mcp_Server.py:250 | dropping one position from distinct keys leaves them distinct and drops exactly that key |
| `Dicts.DistinctCardinality` | mcp_Server.py:256 | a list of distinct keys is as long as its set of keys |
| `Dicts.Values` | mcp_Server.py:153 | `list(d.values())` has one value per key, in key order, each the value stored under that key |
| `Dicts.Size` | mcp_Server.py:256-258 | `len` of a dict, taken from its order, equals the number of its keys |
| `Dicts.OrderKeptByExtension` | mcp_Server.py:113 | assigning further keys never reorders the keys already present |
| `Dicts.OrderBeforeAppended` | mcp_Server.py:113 | a key assigned for the first time comes after every key already present |
| `Metadata.EstimateTokens` | mcp_Server.py:146-149 | `4*t <= len < 4*t + 4` |
| `Metadata.HasFrontmatter` | mcp_Server.py:125-130 | a text is accepted exactly when it starts with `---` and another `---` follows that opening one |
| `Metadata.Header` | mcp_Server.py:132 | the YAML block holds no `---` and does not end in `-` |
| `Metadata.Body` | mcp_Server.py:133 | the body is everything after the opening `---`, the block and the closing `---` |
| `Metadata.FrontmatterLayout` | mcp_Server.py:125-133 | accepted text is `---`, a block without `---` that does not end in `-`, `---`, then the body; with `FrontmatterOfLayout` this makes the layout an if-and-only-if |
| `Metadata.FrontmatterOfLayout` | mcp_Server.py:125-133 | text written as `---` + block + `---` + body is accepted and gives back that block and body, if the block has no `---` and does not end in `-` |
| `Metadata.ParseMetadata` | mcp_Server.py:117-144 | parsing succeeds exactly when the text starts with `---`, splits into three parts, and the YAML reader accepts the block |
| `Metadata.ParseFieldDefaults` | mcp_Server.py:136-144 | each field set in the frontmatter is used; each missing field takes its default (stem, title-cased stem, `''`, `[]`, `'1.0.0'`, true); the token estimate is that of the stripped body |
| `Metadata.StripFrontmatter` | mcp_Server.py:217-220 | text with frontmatter gives the trimmed body; any other text is kept verbatim |
| `Metadata.ParsedTokensMatchContent` | mcp_Server.py:217-226 | the scan-time token estimate equals the estimate of the content that a load of the same text stores |
| `Registry.ReadText` | mcp_Server.py:122 | the text of a readable file, and nothing for a missing or unreadable one |
| `Registry.ParseFile` | mcp_Server.py:111-112 | one file parses exactly when it is readable, has frontmatter and the YAML reader accepts the block; without a `name` field it is named by its file stem |
| `Registry.ParseAll` | mcp_Server.py:110-112 | one parse outcome per listed file, in listing order |
| `Registry.Register` | mcp_Server.py:108-115 | the scan result is a well-formed dict, each skill is keyed by its own name, and there are no more entries than files |
| `Registry.Scan` | mcp_Server.py:106-116 | a scan of the listed files yields a well-formed registry keyed by skill names |
| `Registry.RegisterSkipsFailure` | mcp_Server.py:114-115 | a file that fails to parse leaves the registry unchanged |
| `Registry.RegisterIncludesParsed` | mcp_Server.py:112-113 | every successful parse gets its name registered |
| `Registry.RegisterEntriesFromParsed` | mcp_Server.py:112-113 | every registered entry is one of the parse outcomes |
| `Registry.RegisterLaterWins` | mcp_Server.py:113 | on a name collision, the later metadata overwrites the earlier one |
| `Registry.ScanRegistersParsed` | mcp_Server.py:110-113 | every listed file that reads and parses gets its name registered |
| `Registry.ScanEntriesComeFromFiles` | mcp_Server.py:110-113 | every registered entry was parsed from some listed file |
| `Registry.ScanLaterFileWins` | mcp_Server.py:110-113 | each name keeps the metadata of the last listed file that parses to that name |
| `Registry.RegisterOrder` | mcp_Server.py:108-113 | insertion order is discovery order: a name parsed at some position precedes every name whose first successful parse comes later, whatever later duplicates overwrite |
| `Registry.ScanOrder` | mcp_Server.py:110-113 | in a scan, the name of a listed file precedes every name first parsed from a later file, so `list_skills` and `reload_directory` report skills in `glob` discovery order |
| `Registry.Load` | mcp_Server.py:174-245 | `error` exactly for an unknown name or a failed read (when not already loaded without force); `already_loaded` exactly for a loaded name without force, carrying the existing tokens and timestamp; content is present exactly when `loaded`; only `loaded` changes state, and it stores one record under the name, with the stripped file text and the metadata's token estimate; the message tag is "not available" for an unknown name, "failed" for a failed read, "already in context" and "loaded successfully" for the other two outcomes |
| `Registry.Unload` | mcp_Server.py:247-252 | returns true exactly when the name was loaded; exactly that key is removed by `del`, keeping the order of the rest; otherwise nothing changes |
| `Registry.TotalAfterRemove` | mcp_Server.py:159-164 | removing a record lowers the token sum by exactly that record's tokens |
| `Registry.TotalAfterPut` | mcp_Server.py:159-164 | storing a record changes the sum by its tokens minus those of the record it replaces |
| `Registry.TotalTokens` | mcp_Server.py:161-164 | the sum of the loaded records' tokens is zero exactly when every record holds zero tokens |
| `Registry.RecordTokensWithinTotal` | mcp_Server.py:159-164 | no record holds more tokens than the sum |
| `Lifecycle.SecondLoadIsAlreadyLoaded` | mcp_Server.py:189-199 | after a successful load, a load without force returns `already_loaded` with no content and the first load's tokens and timestamp, and changes nothing |
| `Lifecycle.ForcedLoadRefreshes` | mcp_Server.py:189-238 | a forced load of a registered, readable skill returns `loaded` with its content, stamps the new time and adds only that name |
| `Lifecycle.UnloadTwiceIsNoOp` | mcp_Server.py:247-252 | a second unload in a row returns false and changes nothing |
| `Lifecycle.LoadUnloadLoad` | mcp_Server.py:174-252 | load, unload, load: the unload succeeds and the second load returns the same content and tokens again |
| `Lifecycle.LoadTokenAccounting` | mcp_Server.py:222-229 | a successful load changes the total by the new tokens minus the replaced record's tokens; any other load leaves the total alone |
| `Lifecycle.UnloadTokenAccounting` | mcp_Server.py:247-252 | unloading lowers the total by exactly the removed record's tokens |
| `Lifecycle.UnnamedSkillLoadsItsOwnFile` | mcp_Server.py:137-143 | `<x>.md` without a `name` field registers as `x`, and loading `x` returns that file's body with the token estimate of exactly that body |
| `Lifecycle.RenamedSkillCannotLoad` | mcp_Server.py:204-215 | a skill renamed by its frontmatter is listed, but its load fails when `<new name>.md` does not exist |
| `Manager.SkillsManager.constructor` | mcp_Server.py:93-104 | the manager starts with the scan of the directory and no loaded skills |
| `Manager.SkillsManager.ScanDirectory` | mcp_Server.py:106-116 | the registry becomes the scan of the listed files and loaded records are untouched |
| `Manager.SkillsManager.SkillExists` | mcp_Server.py:170-172 | a name exists exactly when it is in the registry's key order |
| `Manager.SkillsManager.IsSkillLoaded` | mcp_Server.py:166-168 | a name is loaded exactly when it is in the loaded records' key order |
| `Manager.SkillsManager.GetAllSkillsMetadata` | mcp_Server.py:151-153 | every registered skill appears exactly once, each as the entry under its own name |
| `Manager.SkillsManager.GetLoadedSkillNames` | mcp_Server.py:155-157 | each loaded name appears exactly once |
| `Manager.SkillsManager.GetTotalLoadedTokens` | mcp_Server.py:159-164 | the sum of the records' tokens, which bounds each record's tokens |
| `Manager.SkillsManager.HasSkillNamed` | mcp_Server.py:206-213 | the fallback search finds a metadata with the name exactly when the name is registered, so its `raise` branch cannot run |
| `Manager.SkillsManager.LoadSkillContent` | mcp_Server.py:174-245 | the new records and the result are those of `Registry.Load`; the registry is unchanged |
| `Manager.SkillsManager.UnloadSkill` | mcp_Server.py:247-252 | the new records and the result are those of `Registry.Unload` |
| `Manager.SkillsManager.ReloadDirectory` | mcp_Server.py:254-265 | the registry is rescanned and loaded records are kept; `new_skills = current_count - previous_count`; the names are in registry order |
| `Tools.ListSkills` | mcp_Server.py:282-306 | the registered skills in registry order, each exactly once under distinct names, `total_available` equal to their number, the loaded names in load order and the token sum; no state changes |
| `Tools.LoadSkill` | mcp_Server.py:309-334 | same outcome as `load_skill_content` |
| `Tools.UnloadSkill` | mcp_Server.py:337-368 | a name that is not loaded gives an error and no change; otherwise exactly that record goes, `tokens_freed` is its tokens, the total drops by exactly that amount, and `remaining_loaded` lists the other loaded names in their load order |
| `Tools.ReloadSkillsDirectory` | mcp_Server.py:371-386 | success with the rescan report: the previous and current counts, their difference and the names in registry order; loaded skills unchanged |
| `Tools.GetLoadedSkillsInfo` | mcp_Server.py:389-401 | the loaded names in load order, their count and their token sum; no state changes |

## Left out

- The FastMCP server setup is not modelled: `FastMCP(...)`, the `@mcp.tool()` decorators, the module-level singleton and `mcp.run()`. This is transport. The tools take the manager as a parameter instead.
- Filesystem calls (`expanduser`, `mkdir`, `glob`, `exists`, `read_text`) are replaced by the `Directory` value. Glob order is taken as given. Path joining for names that contain separators is not modelled: `<name>.md` is a plain key.
- `yaml.safe_load`, the `.get` calls on its result and Pydantic's type validation are one given `YamlLoader`. Its `None` covers every exception on that path. Pydantic's coercions, and explicit `null` values that defeat a default, are inside that function.
- `datetime.now().isoformat()` is the `now` parameter.
- `Text.Title` treats only ASCII letters as cased. Python's `str.title` also cases other Unicode letters.
- The human-readable message strings are not modelled. Results carry a `LoadMessage` tag instead. The exception text in "Failed to load skill: ..." is not modelled.
- `print` warnings for skipped files and the usage documentation string are left out.
- `Registry.Load` merges "the file does not exist" and "the read raises" into one `ReadText` outcome. `Manager.SkillsManager.LoadSkillContent` keeps the separate existence check and the fallback search.
- The code has no search or ranking engine, embeddings, second skills root, `add_skills_directory`, name-collision diagnostics, pruning of loaded records on rescan, or locking, so the model has none either.
- `SkillLoadResult` and `SkillMetadata` `Config` examples are left out. They are schema documentation only.
