/**
 * The state the skills manager keeps, as values: the registry built by a
 * directory scan (`_available_skills`) and the loaded-skill records
 * (`_loaded_skills`), with the functions that give each operation's outcome.
 * The manager class follows these functions step by step; the lemmas here
 * state what the operations promise.
 */
module Registry {
  import opened Options
  import opened Text
  import opened Dicts
  import opened Metadata

  /** One directory entry as `read_text` sees it. */
  datatype FileState = Readable(text: string) | Unreadable

  /**
   * The skills directory: `listing` is what `glob("*.md")` yields, in its
   * order; `files` maps each existing file name to its state.
   */
  datatype Directory = Directory(listing: seq<string>, files: map<string, FileState>)

  /** `Path(name).read_text()`: the text, or `None` when it raises. */
  function ReadText(dir: Directory, fileName: string): (r: Option<string>)
    ensures r.Some? <==> fileName in dir.files && dir.files[fileName].Readable?
    ensures r.Some? ==> r.value == dir.files[fileName].text
  {
    if fileName in dir.files && dir.files[fileName].Readable? then Some(dir.files[fileName].text)
    else None
  }

  /** `f"{skill_name}.md"` */
  function SkillFileName(name: string): string {
    name + ".md"
  }

  /** The `try` body of `_scan_directory` for one file: read it, then parse it. */
  function ParseFile(dir: Directory, fileName: string, yaml: YamlLoader): (r: Option<SkillMetadata>)
    ensures r.Some? <==>
      && fileName in dir.files && dir.files[fileName].Readable?
      && HasFrontmatter(dir.files[fileName].text) && yaml(Header(dir.files[fileName].text)).Some?
    ensures r.Some? && yaml(Header(dir.files[fileName].text)).value.name.None? ==> r.value.name == Stem(fileName)
  {
    match ReadText(dir, fileName)
    case None => None
    case Some(text) =>
      var r := ParseMetadata(Stem(fileName), text, yaml);
      if r.Some? then ParseFieldDefaults(Stem(fileName), text, yaml, r.value); r
      else r
  }

  /** Every skill is registered under its own name. */
  ghost predicate KeysAreNames(d: Dict<SkillMetadata>) {
    forall k :: k in d.entries ==> d.entries[k].name == k
  }

  /** The parse outcome of each file in `names`, in order. */
  function ParseAll(dir: Directory, names: seq<string>, yaml: YamlLoader): (ps: seq<Option<SkillMetadata>>)
    ensures |ps| == |names|
    ensures forall i :: 0 <= i < |names| ==> ps[i] == ParseFile(dir, names[i], yaml)
  {
    seq(|names|, i requires 0 <= i < |names| => ParseFile(dir, names[i], yaml))
  }

  /**
   * The loop of `_scan_directory` over parse outcomes: starting from an empty
   * registry, each parsed metadata is stored under its own name, and each
   * failure is skipped.
   */
  function Register(parsed: seq<Option<SkillMetadata>>): (d: Dict<SkillMetadata>)
    decreases |parsed|
    ensures Valid(d) && KeysAreNames(d)
    ensures |d.keys| <= |parsed|
  {
    if parsed == [] then Empty()
    else
      var prev := Register(parsed[..|parsed| - 1]);
      match parsed[|parsed| - 1]
      case None => prev
      case Some(m) => Put(prev, m.name, m)
  }

  /** `_scan_directory` over the files `names`, in order. */
  function Scan(dir: Directory, names: seq<string>, yaml: YamlLoader): (d: Dict<SkillMetadata>)
    ensures Valid(d) && KeysAreNames(d)
  {
    Register(ParseAll(dir, names, yaml))
  }

  /** A failed parse leaves the registry as it was. */
  lemma RegisterSkipsFailure(parsed: seq<Option<SkillMetadata>>)
    ensures Register(parsed + [None]) == Register(parsed)
  {
    assert (parsed + [None])[..|parsed|] == parsed;
  }

  /** Every successful parse gets its name registered. */
  lemma {:induction false} RegisterIncludesParsed(parsed: seq<Option<SkillMetadata>>, i: nat)
    requires i < |parsed| && parsed[i].Some?
    ensures parsed[i].value.name in Register(parsed).entries
  {
    var init := parsed[..|parsed| - 1];
    if i < |parsed| - 1 {
      assert init[i] == parsed[i];
      RegisterIncludesParsed(init, i);
    }
  }

  /** Every registered entry is one of the parsed metadata. */
  lemma {:induction false} RegisterEntriesFromParsed(parsed: seq<Option<SkillMetadata>>, k: string)
    requires k in Register(parsed).entries
    ensures exists i :: 0 <= i < |parsed| && parsed[i] == Some(Register(parsed).entries[k])
  {
    var n := |parsed|;
    var init := parsed[..n - 1];
    var d := Register(parsed);
    if parsed[n - 1].Some? && parsed[n - 1].value.name == k {
      assert parsed[n - 1] == Some(d.entries[k]);
    } else {
      assert d.entries[k] == Register(init).entries[k];
      RegisterEntriesFromParsed(init, k);
      var i :| 0 <= i < |init| && init[i] == Some(Register(init).entries[k]);
      assert parsed[i] == init[i];
    }
  }

  /** On a name collision the later metadata wins. */
  lemma {:induction false} RegisterLaterWins(parsed: seq<Option<SkillMetadata>>, i: nat)
    requires i < |parsed| && parsed[i].Some?
    requires forall j :: i < j < |parsed| ==> parsed[j].None? || parsed[j].value.name != parsed[i].value.name
    ensures parsed[i].value.name in Register(parsed).entries
    ensures Register(parsed).entries[parsed[i].value.name] == parsed[i].value
  {
    RegisterIncludesParsed(parsed, i);
    var n := |parsed|;
    var init := parsed[..n - 1];
    if i < n - 1 {
      assert init[i] == parsed[i];
      forall j | i < j < |init|
        ensures init[j].None? || init[j].value.name != init[i].value.name
      {
        assert init[j] == parsed[j];
      }
      RegisterLaterWins(init, i);
    }
  }

  /** Registering one more outcome only ever appends to the order. */
  lemma RegisterKeysGrow(parsed: seq<Option<SkillMetadata>>)
    requires parsed != []
    ensures Register(parsed[..|parsed| - 1]).keys <= Register(parsed).keys
  {
  }

  /** A name the last outcome brings in for the first time is appended at the end. */
  lemma RegisterNewLast(parsed: seq<Option<SkillMetadata>>, b: string)
    requires parsed != [] && b in Register(parsed).entries
    requires b !in Register(parsed[..|parsed| - 1]).entries
    ensures Register(parsed).keys == Register(parsed[..|parsed| - 1]).keys + [b]
  {
  }

  /** A name no outcome carries is not registered. */
  lemma RegisterNeverParsed(parsed: seq<Option<SkillMetadata>>, b: string)
    requires forall j :: 0 <= j < |parsed| ==> parsed[j].None? || parsed[j].value.name != b
    ensures b !in Register(parsed).entries
  {
    if b in Register(parsed).entries {
      RegisterEntriesFromParsed(parsed, b);
    }
  }

  /**
   * Registration order is discovery order: a name parsed at position `i`
   * comes before any name `b` whose first successful parse lies after `i`,
   * however often either name is parsed again later.
   */
  lemma {:induction false} RegisterOrder(parsed: seq<Option<SkillMetadata>>, i: nat, b: string)
    requires i < |parsed| && parsed[i].Some? && parsed[i].value.name != b
    requires b in Register(parsed).entries
    requires forall j :: 0 <= j <= i ==> parsed[j].None? || parsed[j].value.name != b
    ensures parsed[i].value.name in Register(parsed).keys
    ensures IndexOf(Register(parsed).keys, parsed[i].value.name) < IndexOf(Register(parsed).keys, b)
  {
    var n := |parsed|;
    var a := parsed[i].value.name;
    var init := parsed[..n - 1];
    var prev := Register(init);
    var d := Register(parsed);
    if i == n - 1 {
      RegisterNeverParsed(parsed, b);
      assert false;
    }
    assert init[i] == parsed[i];
    RegisterIncludesParsed(init, i);
    if b in prev.entries {
      forall j | 0 <= j <= i
        ensures init[j].None? || init[j].value.name != b
      {
        assert init[j] == parsed[j];
      }
      RegisterOrder(init, i, b);
      RegisterKeysGrow(parsed);
      OrderKeptByExtension(prev.keys, d.keys, a, b);
    } else {
      RegisterNewLast(parsed, b);
      OrderBeforeAppended(prev.keys, a, b);
    }
  }

  /** Every file that parses gets its name registered by a scan. */
  lemma ScanRegistersParsed(dir: Directory, names: seq<string>, yaml: YamlLoader, i: nat)
    requires i < |names| && ParseFile(dir, names[i], yaml).Some?
    ensures ParseFile(dir, names[i], yaml).value.name in Scan(dir, names, yaml).entries
  {
    RegisterIncludesParsed(ParseAll(dir, names, yaml), i);
  }

  /** Every entry of a scan is the metadata parsed from some listed file. */
  lemma ScanEntriesComeFromFiles(dir: Directory, names: seq<string>, yaml: YamlLoader, k: string)
    requires k in Scan(dir, names, yaml).entries
    ensures exists i :: 0 <= i < |names| && ParseFile(dir, names[i], yaml) == Some(Scan(dir, names, yaml).entries[k])
  {
    RegisterEntriesFromParsed(ParseAll(dir, names, yaml), k);
  }

  /**
   * A scan keeps, for each name, the metadata of the last listed file that
   * parses to that name.
   */
  lemma ScanLaterFileWins(dir: Directory, names: seq<string>, yaml: YamlLoader, i: nat, m: SkillMetadata)
    requires i < |names| && ParseFile(dir, names[i], yaml) == Some(m)
    requires forall j :: i < j < |names| ==>
      ParseFile(dir, names[j], yaml).None? || ParseFile(dir, names[j], yaml).value.name != m.name
    ensures m.name in Scan(dir, names, yaml).entries && Scan(dir, names, yaml).entries[m.name] == m
  {
    var ps := ParseAll(dir, names, yaml);
    RegisterIncludesParsed(ps, i);
    RegisterLaterWins(ps, i);
  }

  /**
   * A scan lists names in discovery order: the name of the file at position
   * `i` comes before any name first parsed from a later file.
   */
  lemma ScanOrder(dir: Directory, names: seq<string>, yaml: YamlLoader, i: nat, b: string)
    requires i < |names| && ParseFile(dir, names[i], yaml).Some? && ParseFile(dir, names[i], yaml).value.name != b
    requires b in Scan(dir, names, yaml).entries
    requires forall j :: 0 <= j <= i ==> ParseFile(dir, names[j], yaml).None? || ParseFile(dir, names[j], yaml).value.name != b
    ensures ParseFile(dir, names[i], yaml).value.name in Scan(dir, names, yaml).keys
    ensures IndexOf(Scan(dir, names, yaml).keys, ParseFile(dir, names[i], yaml).value.name) < IndexOf(Scan(dir, names, yaml).keys, b)
  {
    RegisterOrder(ParseAll(dir, names, yaml), i, b);
  }

  /** `_loaded_skills[name]`: the materialised content of one skill. */
  datatype LoadedSkill = LoadedSkill(content: string, tokens: nat, loadedAt: string, metadata: SkillMetadata)

  datatype LoadStatus = Loaded | AlreadyLoaded | LoadError

  /** Which of `load_skill_content`'s messages accompanies a result. */
  datatype LoadMessage = NotAvailable | AlreadyInContext | LoadedSuccessfully | LoadFailed

  /** `SkillLoadResult` */
  datatype LoadResult = LoadResult(
    status: LoadStatus,
    skillName: string,
    content: Option<string>,
    message: LoadMessage,
    tokensLoaded: Option<nat>,
    loadedAt: Option<string>)

  /** The loaded-skill records after a load, and what the load returned. */
  datatype LoadOutcome = LoadOutcome(loaded: Dict<LoadedSkill>, result: LoadResult)

  /**
   * `load_skill_content(name, force)` with the clock reading `now`: an unknown
   * name is an error; a loaded name without `force` is reported as already
   * loaded; otherwise `<name>.md` is read, and on success its content, less
   * the frontmatter, is stored under `name` with the token estimate taken at
   * scan time; a failed read is an error. Only a successful read changes state.
   */
  function Load(available: Dict<SkillMetadata>, loaded: Dict<LoadedSkill>, dir: Directory,
                name: string, force: bool, now: string): (o: LoadOutcome)
    requires Valid(available) && Valid(loaded)
    ensures Valid(o.loaded) && o.result.skillName == name
    ensures o.result.status == LoadError <==>
      name !in available.entries || ((name !in loaded.entries || force) && ReadText(dir, SkillFileName(name)).None?)
    ensures o.result.status == AlreadyLoaded <==>
      name in available.entries && name in loaded.entries && !force
    ensures o.result.content.Some? <==> o.result.status == Loaded
    ensures o.result.status != Loaded ==> o.loaded == loaded
    ensures name !in available.entries ==> o.result.message == NotAvailable
    ensures name in available.entries && o.result.status == LoadError ==> o.result.message == LoadFailed
    ensures o.result.status == AlreadyLoaded ==> o.result.message == AlreadyInContext
    ensures o.result.status == Loaded ==> o.result.message == LoadedSuccessfully
    ensures o.result.status == LoadError ==> o.result.tokensLoaded.None? && o.result.loadedAt.None?
    ensures o.result.status == AlreadyLoaded ==>
      o.result.tokensLoaded == Some(loaded.entries[name].tokens) &&
      o.result.loadedAt == Some(loaded.entries[name].loadedAt)
    ensures o.result.status == Loaded ==>
      var meta := available.entries[name];
      var content := StripFrontmatter(ReadText(dir, SkillFileName(name)).value);
      && o.loaded == Put(loaded, name, LoadedSkill(content, meta.estimatedTokens, now, meta))
      && o.result.content == Some(content)
      && o.result.tokensLoaded == Some(meta.estimatedTokens)
      && o.result.loadedAt == Some(now)
  {
    if name !in available.entries then
      LoadOutcome(loaded, LoadResult(LoadError, name, None, NotAvailable, None, None))
    else if name in loaded.entries && !force then
      var existing := loaded.entries[name];
      LoadOutcome(loaded, LoadResult(AlreadyLoaded, name, None, AlreadyInContext,
                                     Some(existing.tokens), Some(existing.loadedAt)))
    else
      match ReadText(dir, SkillFileName(name))
      case None => LoadOutcome(loaded, LoadResult(LoadError, name, None, LoadFailed, None, None))
      case Some(text) =>
        var meta := available.entries[name];
        var content := StripFrontmatter(text);
        LoadOutcome(Put(loaded, name, LoadedSkill(content, meta.estimatedTokens, now, meta)),
                    LoadResult(Loaded, name, Some(content), LoadedSuccessfully,
                               Some(meta.estimatedTokens), Some(now)))
  }

  datatype UnloadOutcome = UnloadOutcome(loaded: Dict<LoadedSkill>, removed: bool)

  /** `SkillsManager.unload_skill(name)`: drop the record if there is one, and say whether there was. */
  function Unload(loaded: Dict<LoadedSkill>, name: string): (o: UnloadOutcome)
    requires Valid(loaded)
    ensures Valid(o.loaded)
    ensures o.removed <==> name in loaded.entries
    ensures o.loaded.entries == loaded.entries - {name}
    ensures !o.removed ==> o.loaded == loaded
    ensures o.removed ==> o.loaded == Remove(loaded, name)
  {
    if name in loaded.entries then UnloadOutcome(Remove(loaded, name), true)
    else UnloadOutcome(loaded, false)
  }

  /** The token counts of the records under `keys`, added up. */
  function SumTokens(keys: seq<string>, entries: map<string, LoadedSkill>): nat
    requires forall k :: k in keys ==> k in entries
  {
    if keys == [] then 0 else entries[keys[0]].tokens + SumTokens(keys[1..], entries)
  }

  /** `get_total_loaded_tokens` */
  function TotalTokens(loaded: Dict<LoadedSkill>): (t: nat)
    requires Valid(loaded)
    ensures t == 0 <==> forall k :: k in loaded.entries ==> loaded.entries[k].tokens == 0
  {
    SumTokensZero(loaded.keys, loaded.entries);
    SumTokens(loaded.keys, loaded.entries)
  }

  /** The records under `keys` add up to nothing exactly when each holds no tokens. */
  lemma {:induction false} SumTokensZero(keys: seq<string>, entries: map<string, LoadedSkill>)
    requires forall k :: k in keys ==> k in entries
    ensures SumTokens(keys, entries) == 0 <==> forall k :: k in keys ==> entries[k].tokens == 0
  {
    if keys != [] {
      SumTokensZero(keys[1..], entries);
      assert forall k :: k in keys <==> k == keys[0] || k in keys[1..];
    }
  }

  lemma {:induction false} SumTokensAppend(a: seq<string>, b: seq<string>, entries: map<string, LoadedSkill>)
    requires forall k :: k in a + b ==> k in entries
    ensures SumTokens(a + b, entries) == SumTokens(a, entries) + SumTokens(b, entries)
  {
    if a != [] {
      assert (a + b)[1..] == a[1..] + b;
      SumTokensAppend(a[1..], b, entries);
    } else {
      assert a + b == b;
    }
  }

  lemma {:induction false} SumTokensFrame(keys: seq<string>, e1: map<string, LoadedSkill>, e2: map<string, LoadedSkill>)
    requires forall k :: k in keys ==> k in e1 && k in e2 && e1[k].tokens == e2[k].tokens
    ensures SumTokens(keys, e1) == SumTokens(keys, e2)
  {
    if keys != [] {
      SumTokensFrame(keys[1..], e1, e2);
    }
  }

  /** Dropping a record lowers the total by exactly its tokens. */
  lemma TotalAfterRemove(loaded: Dict<LoadedSkill>, name: string)
    requires Valid(loaded) && name in loaded.entries
    ensures TotalTokens(Remove(loaded, name)) == TotalTokens(loaded) - loaded.entries[name].tokens
  {
    var keys := loaded.keys;
    var i := IndexOf(keys, name);
    var r := Remove(loaded, name);
    assert keys == keys[..i] + [name] + keys[i + 1..];
    SumTokensAppend(keys[..i] + [name], keys[i + 1..], loaded.entries);
    SumTokensAppend(keys[..i], [name], loaded.entries);
    SumTokensAppend(keys[..i], keys[i + 1..], loaded.entries);
    assert forall k :: k in keys[..i] + keys[i + 1..] ==> k != name && k in keys by {
      DropAt(keys, i);
    }
    SumTokensFrame(r.keys, r.entries, loaded.entries);
  }

  /** Storing a record replaces the tokens of the one it overwrites, if any, by its own. */
  lemma TotalAfterPut(loaded: Dict<LoadedSkill>, name: string, record: LoadedSkill)
    requires Valid(loaded)
    ensures TotalTokens(Put(loaded, name, record)) ==
      TotalTokens(loaded) - (if name in loaded.entries then loaded.entries[name].tokens else 0) + record.tokens
  {
    var r := Put(loaded, name, record);
    if name in loaded.entries {
      TotalAfterRemove(loaded, name);
      TotalAfterRemove(r, name);
      assert Remove(r, name) == Remove(loaded, name);
    } else {
      SumTokensAppend(loaded.keys, [name], r.entries);
      SumTokensFrame(loaded.keys, r.entries, loaded.entries);
    }
  }

  /** No record holds more tokens than all loaded records together. */
  lemma RecordTokensWithinTotal(loaded: Dict<LoadedSkill>, name: string)
    requires Valid(loaded) && name in loaded.entries
    ensures loaded.entries[name].tokens <= TotalTokens(loaded)
  {
    TotalAfterRemove(loaded, name);
  }
}
