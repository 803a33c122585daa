/**
 * `SkillsManager`: the object that owns the skill registry and the
 * loaded-skill records and changes them in place. Each method is proved to
 * leave its fields as the matching outcome function of `Registry` says.
 */
module Manager {
  import opened Options
  import opened Dicts
  import opened Metadata
  import opened Registry

  /** What `reload_directory` returns. */
  datatype ReloadReport = ReloadReport(
    previousCount: nat,
    currentCount: nat,
    newSkills: int,
    skillNames: seq<string>)

  class SkillsManager {
    /** The YAML reader the manager parses frontmatter with. */
    const yaml: YamlLoader
    /** `_available_skills`: skill name to metadata, rebuilt by every scan. */
    var available: Dict<SkillMetadata>
    /** `_loaded_skills`: skill name to its loaded record. */
    var loaded: Dict<LoadedSkill>

    /**
     * Both dictionaries are well formed and every skill is registered under
     * its own name. Loaded names need not be registered: a rescan keeps the
     * records of skills it no longer finds.
     */
    ghost predicate Valid()
      reads this
    {
      Dicts.Valid(available) && Dicts.Valid(loaded) && KeysAreNames(available)
    }

    /** `__init__`: empty state, then a first scan of the directory. */
    constructor(dir: Directory, yaml: YamlLoader)
      ensures Valid() && this.yaml == yaml
      ensures available == Scan(dir, dir.listing, yaml)
      ensures loaded == Empty()
    {
      this.yaml := yaml;
      available := Empty();
      loaded := Empty();
      new;
      ScanDirectory(dir);
    }

    /**
     * `_scan_directory`: clear the registry, then try each listed file in
     * turn, storing what parses under its name and skipping what does not.
     */
    method ScanDirectory(dir: Directory)
      requires Valid()
      modifies this
      ensures Valid()
      ensures available == Scan(dir, dir.listing, yaml)
      ensures loaded == old(loaded)
    {
      available := Empty();
      ghost var parsed := ParseAll(dir, dir.listing, yaml);
      var i := 0;
      while i < |dir.listing|
        invariant 0 <= i <= |dir.listing|
        invariant available == Register(parsed[..i])
        invariant loaded == old(loaded)
      {
        var outcome := ParseFile(dir, dir.listing[i], yaml);
        if outcome.Some? {
          available := Put(available, outcome.value.name, outcome.value);
        }
        assert parsed[..i + 1][..i] == parsed[..i];
        i := i + 1;
      }
      assert parsed[..i] == parsed;
    }

    /** `skill_exists`: `name` is registered, i.e. listed by `get_all_skills_metadata`. */
    predicate SkillExists(name: string)
      reads this
      requires Valid()
      ensures SkillExists(name) <==> name in available.keys
    {
      name in available.entries
    }

    /** `is_skill_loaded`: `name` has a record, i.e. is listed by `get_loaded_skill_names`. */
    predicate IsSkillLoaded(name: string)
      reads this
      requires Valid()
      ensures IsSkillLoaded(name) <==> name in loaded.keys
    {
      name in loaded.entries
    }

    /**
     * `get_all_skills_metadata`: every registered skill exactly once, each
     * being the entry registered under its own name.
     */
    function GetAllSkillsMetadata(): (skills: seq<SkillMetadata>)
      reads this
      requires Valid()
      ensures |skills| == |available.entries|
      ensures forall i :: 0 <= i < |skills| ==>
        skills[i].name in available.entries && available.entries[skills[i].name] == skills[i]
      ensures forall i, j :: 0 <= i < j < |skills| ==> skills[i].name != skills[j].name
    {
      OrderMatchesEntries(available);
      Values(available)
    }

    /** `get_loaded_skill_names`: each loaded name exactly once. */
    function GetLoadedSkillNames(): (names: seq<string>)
      reads this
      requires Valid()
      ensures |names| == |loaded.entries|
      ensures forall k :: k in names <==> k in loaded.entries
    {
      OrderMatchesEntries(loaded);
      loaded.keys
    }

    /** `get_total_loaded_tokens`: the sum of the records' tokens, which bounds each of them. */
    function GetTotalLoadedTokens(): (total: nat)
      reads this
      requires Valid()
      ensures total == TotalTokens(loaded)
      ensures forall k :: k in loaded.entries ==> loaded.entries[k].tokens <= total
    {
      var total := TotalTokens(loaded);
      assert forall k :: k in loaded.entries ==> loaded.entries[k].tokens <= total by {
        forall k | k in loaded.entries
          ensures loaded.entries[k].tokens <= total
        {
          RecordTokensWithinTotal(loaded, k);
        }
      }
      total
    }

    /**
     * The fallback search of `load_skill_content`, run when `<name>.md` does
     * not exist: look through the registered metadata for one called `name`.
     * Because every skill is registered under its own name, it finds one
     * exactly when `name` is registered.
     */
    method HasSkillNamed(name: string) returns (found: bool)
      requires Valid()
      ensures found <==> exists i :: 0 <= i < |available.keys| && available.entries[available.keys[i]].name == name
      ensures found <==> name in available.entries
    {
      var skills := Values(available);
      found := false;
      var i := 0;
      while i < |skills|
        invariant 0 <= i <= |skills|
        invariant !found
        invariant forall j :: 0 <= j < i ==> skills[j].name != name
      {
        if skills[i].name == name {
          found := true;
          break;
        }
        i := i + 1;
      }
      if name in available.entries {
        var j := IndexOf(available.keys, name);
        assert skills[j].name == name;
      }
    }

    /**
     * `load_skill_content`: the outcome `Registry.Load` gives, with the
     * registry untouched.
     */
    method LoadSkillContent(dir: Directory, name: string, force: bool, now: string) returns (r: LoadResult)
      requires Valid()
      modifies this
      ensures Valid() && available == old(available)
      ensures var o := Load(old(available), old(loaded), dir, name, force, now);
        loaded == o.loaded && r == o.result
    {
      if !SkillExists(name) {
        r := LoadResult(LoadError, name, None, NotAvailable, None, None);
        return;
      }
      if IsSkillLoaded(name) && !force {
        var existing := loaded.entries[name];
        r := LoadResult(AlreadyLoaded, name, None, AlreadyInContext, Some(existing.tokens), Some(existing.loadedAt));
        return;
      }
      var metadata := available.entries[name];
      var fileName := SkillFileName(name);
      if fileName !in dir.files {
        var found := HasSkillNamed(name);
        if !found {
          // The `else` branch that raises "Skill file not found" is unreachable.
          assert false;
        }
      }
      if fileName !in dir.files || dir.files[fileName].Unreadable? {
        // `read_text` raises; the handler turns that into an error result.
        r := LoadResult(LoadError, name, None, LoadFailed, None, None);
        return;
      }
      var content := StripFrontmatter(dir.files[fileName].text);
      loaded := Put(loaded, name, LoadedSkill(content, metadata.estimatedTokens, now, metadata));
      r := LoadResult(Loaded, name, Some(content), LoadedSuccessfully, Some(metadata.estimatedTokens), Some(now));
    }

    /** `unload_skill`: the outcome `Registry.Unload` gives, with the registry untouched. */
    method UnloadSkill(name: string) returns (removed: bool)
      requires Valid()
      modifies this
      ensures Valid() && available == old(available)
      ensures var u := Unload(old(loaded), name);
        loaded == u.loaded && removed == u.removed
    {
      if name in loaded.entries {
        loaded := Remove(loaded, name);
        return true;
      }
      return false;
    }

    /**
     * `reload_directory`: rescan, keep every loaded record, and report the
     * counts before and after and the registered names in registry order.
     */
    method ReloadDirectory(dir: Directory) returns (report: ReloadReport)
      requires Valid()
      modifies this
      ensures Valid()
      ensures available == Scan(dir, dir.listing, yaml) && loaded == old(loaded)
      ensures report.previousCount == |old(available.entries)|
      ensures report.currentCount == |available.entries|
      ensures report.newSkills == report.currentCount - report.previousCount
      ensures report.skillNames == available.keys
    {
      var oldCount := Size(available);
      ScanDirectory(dir);
      var newCount := Size(available);
      var skills := Values(available);
      var names := seq(|skills|, i requires 0 <= i < |skills| => skills[i].name);
      report := ReloadReport(oldCount, newCount, newCount as int - oldCount as int, names);
    }
  }
}
