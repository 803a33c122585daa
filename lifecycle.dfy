/**
 * The per-skill load state machine that `load_skill_content` and
 * `unload_skill` implement, stated over the outcome functions of `Registry`:
 * loading is idempotent unless forced, unloading is idempotent, and the
 * total of loaded tokens follows each transition exactly.
 */
module Lifecycle {
  import opened Options
  import opened Text
  import opened Dicts
  import opened Metadata
  import opened Registry

  /** A second load without `force` reports the first one and changes nothing. */
  lemma SecondLoadIsAlreadyLoaded(available: Dict<SkillMetadata>, loaded: Dict<LoadedSkill>, dir: Directory,
                                  name: string, force: bool, t1: string, t2: string)
    requires Valid(available) && Valid(loaded)
    requires Load(available, loaded, dir, name, force, t1).result.status == Loaded
    ensures var o1 := Load(available, loaded, dir, name, force, t1);
      var o2 := Load(available, o1.loaded, dir, name, false, t2);
      && o2.result.status == AlreadyLoaded
      && o2.result.content.None?
      && o2.loaded == o1.loaded
      && o2.result.tokensLoaded == o1.result.tokensLoaded
      && o2.result.loadedAt == Some(t1)
  {
  }

  /** A forced load of a listed skill whose file reads succeeds, whatever was loaded before. */
  lemma ForcedLoadRefreshes(available: Dict<SkillMetadata>, loaded: Dict<LoadedSkill>, dir: Directory,
                            name: string, now: string)
    requires Valid(available) && Valid(loaded)
    requires name in available.entries && ReadText(dir, SkillFileName(name)).Some?
    ensures var o := Load(available, loaded, dir, name, true, now);
      && o.result.status == Loaded
      && o.result.content == Some(StripFrontmatter(ReadText(dir, SkillFileName(name)).value))
      && o.loaded.entries[name].loadedAt == now
      && o.loaded.entries.Keys == loaded.entries.Keys + {name}
  {
  }

  /** Unloading twice in a row: the second unload finds nothing and changes nothing. */
  lemma UnloadTwiceIsNoOp(loaded: Dict<LoadedSkill>, name: string)
    requires Valid(loaded)
    ensures var u1 := Unload(loaded, name);
      var u2 := Unload(u1.loaded, name);
      !u2.removed && u2.loaded == u1.loaded
  {
  }

  /**
   * Load, unload, load: the second load returns the content afresh, because
   * the unload put the skill back in the unloaded state.
   */
  lemma LoadUnloadLoad(available: Dict<SkillMetadata>, loaded: Dict<LoadedSkill>, dir: Directory,
                       name: string, t1: string, t3: string)
    requires Valid(available) && Valid(loaded)
    requires Load(available, loaded, dir, name, false, t1).result.status == Loaded
    ensures var o1 := Load(available, loaded, dir, name, false, t1);
      var u := Unload(o1.loaded, name);
      var o3 := Load(available, u.loaded, dir, name, false, t3);
      && u.removed
      && o3.result.status == Loaded
      && o3.result.content == o1.result.content
      && o3.result.tokensLoaded == o1.result.tokensLoaded
  {
  }

  /**
   * A successful load changes the total of loaded tokens by the new record's
   * tokens less those of the record it replaces; any other load leaves it alone.
   */
  lemma LoadTokenAccounting(available: Dict<SkillMetadata>, loaded: Dict<LoadedSkill>, dir: Directory,
                            name: string, force: bool, now: string)
    requires Valid(available) && Valid(loaded)
    ensures var o := Load(available, loaded, dir, name, force, now);
      o.result.status == Loaded ==>
        TotalTokens(o.loaded) ==
          TotalTokens(loaded) - (if name in loaded.entries then loaded.entries[name].tokens else 0)
          + o.result.tokensLoaded.value
    ensures var o := Load(available, loaded, dir, name, force, now);
      o.result.status != Loaded ==> TotalTokens(o.loaded) == TotalTokens(loaded)
  {
    var o := Load(available, loaded, dir, name, force, now);
    if o.result.status == Loaded {
      var meta := available.entries[name];
      var content := StripFrontmatter(ReadText(dir, SkillFileName(name)).value);
      TotalAfterPut(loaded, name, LoadedSkill(content, meta.estimatedTokens, now, meta));
    }
  }

  /** Unloading a loaded skill lowers the total by exactly the tokens of its record. */
  lemma UnloadTokenAccounting(loaded: Dict<LoadedSkill>, name: string)
    requires Valid(loaded) && name in loaded.entries
    ensures TotalTokens(Unload(loaded, name).loaded) == TotalTokens(loaded) - loaded.entries[name].tokens
  {
    TotalAfterRemove(loaded, name);
  }

  /**
   * A skill file `<x>.md` whose frontmatter sets no name registers as `x`;
   * when no later file claims `x`, loading `x` returns that very file's body,
   * and the token count reported is the estimate for exactly that body.
   */
  lemma UnnamedSkillLoadsItsOwnFile(dir: Directory, yaml: YamlLoader, loaded: Dict<LoadedSkill>,
                                    i: nat, x: string, text: string, force: bool, now: string)
    requires Valid(loaded)
    requires |x| > 0 && i < |dir.listing| && dir.listing[i] == SkillFileName(x)
    requires ReadText(dir, SkillFileName(x)) == Some(text)
    requires HasFrontmatter(text) && yaml(Header(text)).Some? && yaml(Header(text)).value.name.None?
    requires forall j :: i < j < |dir.listing| ==>
      ParseFile(dir, dir.listing[j], yaml).None? || ParseFile(dir, dir.listing[j], yaml).value.name != x
    requires x !in loaded.entries || force
    ensures var available := Scan(dir, dir.listing, yaml);
      && x in available.entries
      && Load(available, loaded, dir, x, force, now).result ==
           LoadResult(Loaded, x, Some(StripFrontmatter(text)), LoadedSuccessfully,
                      Some(EstimateTokens(StripFrontmatter(text))), Some(now))
  {
    StemOfMarkdownName(x);
    var m := ParseFile(dir, dir.listing[i], yaml).value;
    ParseFieldDefaults(x, text, yaml, m);
    ScanLaterFileWins(dir, dir.listing, yaml, i, m);
    ParsedTokensMatchContent(x, text, yaml);
  }

  /**
   * A skill whose frontmatter renames it is listed under the new name, but
   * `load_skill_content` looks for `<new name>.md`; when there is no such file
   * the skill can never be loaded.
   */
  lemma RenamedSkillCannotLoad(dir: Directory, yaml: YamlLoader, loaded: Dict<LoadedSkill>,
                               i: nat, force: bool, now: string)
    requires Valid(loaded)
    requires i < |dir.listing| && ParseFile(dir, dir.listing[i], yaml).Some?
    requires SkillFileName(ParseFile(dir, dir.listing[i], yaml).value.name) !in dir.files
    requires ParseFile(dir, dir.listing[i], yaml).value.name !in loaded.entries
    ensures var name := ParseFile(dir, dir.listing[i], yaml).value.name;
      var available := Scan(dir, dir.listing, yaml);
      && name in available.entries
      && Load(available, loaded, dir, name, force, now).result.status == LoadError
  {
    ScanRegistersParsed(dir, dir.listing, yaml, i);
  }
}
