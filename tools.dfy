/**
 * The tool functions the server exposes, over the process's one
 * `SkillsManager` (passed in explicitly here). Each builds a structured
 * result; none lets an error escape as an exception.
 */
module Tools {
  import opened Dicts
  import opened Metadata
  import opened Registry
  import opened Manager
  import opened Lifecycle

  /** `SkillsListResult` */
  datatype SkillsList = SkillsList(
    skills: seq<SkillMetadata>,
    totalAvailable: nat,
    currentlyLoaded: seq<string>,
    totalTokensLoaded: nat)

  /**
   * `list_skills`: every registered skill once, how many there are, the
   * loaded names and the total of their tokens; nothing changes.
   */
  method ListSkills(m: SkillsManager) returns (r: SkillsList)
    requires m.Valid()
    ensures r.totalAvailable == |r.skills| == |m.available.entries|
    ensures forall i :: 0 <= i < |r.skills| ==>
      r.skills[i].name in m.available.entries && m.available.entries[r.skills[i].name] == r.skills[i]
    ensures forall i, j :: 0 <= i < j < |r.skills| ==> r.skills[i].name != r.skills[j].name
    ensures r.skills == Values(m.available) && r.currentlyLoaded == m.loaded.keys
    ensures |r.currentlyLoaded| == |m.loaded.entries|
    ensures forall k :: k in r.currentlyLoaded <==> k in m.loaded.entries
    ensures r.totalTokensLoaded == TotalTokens(m.loaded)
  {
    var skills := m.GetAllSkillsMetadata();
    var loadedNames := m.GetLoadedSkillNames();
    var totalTokens := m.GetTotalLoadedTokens();
    r := SkillsList(skills, |skills|, loadedNames, totalTokens);
  }

  /** `load_skill`: `load_skill_content` as it is. */
  method LoadSkill(m: SkillsManager, dir: Directory, name: string, force: bool, now: string) returns (r: LoadResult)
    requires m.Valid()
    modifies m
    ensures m.Valid() && m.available == old(m.available)
    ensures var o := Load(old(m.available), old(m.loaded), dir, name, force, now);
      m.loaded == o.loaded && r == o.result
  {
    r := m.LoadSkillContent(dir, name, force, now);
  }

  /** What the `unload_skill` tool returns. */
  datatype UnloadReply =
    | NotCurrentlyLoaded(skillName: string)
    | Unloaded(skillName: string, tokensFreed: nat, remainingLoaded: seq<string>)

  /**
   * The `unload_skill` tool: a name that is not loaded is an error and
   * changes nothing; otherwise the record goes, the reply gives the tokens
   * it held, and the loaded total drops by exactly that much.
   */
  method UnloadSkill(m: SkillsManager, name: string) returns (r: UnloadReply)
    requires m.Valid()
    modifies m
    ensures m.Valid() && m.available == old(m.available)
    ensures name !in old(m.loaded.entries) ==> r == NotCurrentlyLoaded(name) && m.loaded == old(m.loaded)
    ensures name in old(m.loaded.entries) ==>
      && r.Unloaded? && r.skillName == name
      && r.tokensFreed == old(m.loaded.entries[name].tokens)
      && m.loaded.entries == old(m.loaded.entries) - {name}
      && m.loaded == Unload(old(m.loaded), name).loaded
      && TotalTokens(m.loaded) == old(TotalTokens(m.loaded)) - r.tokensFreed
      && r.remainingLoaded == m.loaded.keys
  {
    if !m.IsSkillLoaded(name) {
      return NotCurrentlyLoaded(name);
    }
    var tokensFreed := m.loaded.entries[name].tokens;
    UnloadTokenAccounting(m.loaded, name);
    var _ := m.UnloadSkill(name);
    r := Unloaded(name, tokensFreed, m.GetLoadedSkillNames());
  }

  /** What the `reload_skills_directory` tool returns: success and the rescan report. */
  datatype ReloadReply = ReloadSucceeded(report: ReloadReport)

  /** `reload_skills_directory`: `reload_directory` with a success status. */
  method ReloadSkillsDirectory(m: SkillsManager, dir: Directory) returns (r: ReloadReply)
    requires m.Valid()
    modifies m
    ensures m.Valid()
    ensures m.available == Scan(dir, dir.listing, m.yaml) && m.loaded == old(m.loaded)
    ensures r.report.previousCount == |old(m.available.entries)| && r.report.currentCount == |m.available.entries|
    ensures r.report.newSkills == |m.available.entries| - |old(m.available.entries)|
    ensures r.report.skillNames == m.available.keys
  {
    var report := m.ReloadDirectory(dir);
    r := ReloadSucceeded(report);
  }

  /** What `get_loaded_skills_info` returns. */
  datatype LoadedSkillsInfo = LoadedSkillsInfo(loadedSkills: seq<string>, totalLoaded: nat, totalTokens: nat)

  /** `get_loaded_skills_info`: the loaded names, how many, and their total tokens; nothing changes. */
  method GetLoadedSkillsInfo(m: SkillsManager) returns (r: LoadedSkillsInfo)
    requires m.Valid()
    ensures r.totalLoaded == |r.loadedSkills| == |m.loaded.entries|
    ensures forall k :: k in r.loadedSkills <==> k in m.loaded.entries
    ensures r.loadedSkills == m.loaded.keys
    ensures r.totalTokens == TotalTokens(m.loaded)
    ensures forall k :: k in m.loaded.entries ==> m.loaded.entries[k].tokens <= r.totalTokens
  {
    var names := m.GetLoadedSkillNames();
    r := LoadedSkillsInfo(names, |m.GetLoadedSkillNames()|, m.GetTotalLoadedTokens());
  }
}
