/**
 * Skill metadata and the rules that derive it from a skill file's text
 * (`SkillsManager._parse_skill_metadata` and `_estimate_tokens`), together
 * with the frontmatter removal `load_skill_content` applies before handing
 * content out.
 */
module Metadata {
  import opened Options
  import opened Text

  /** `SkillMetadata`: what `list_skills` shows for one skill. */
  datatype SkillMetadata = SkillMetadata(
    name: string,
    title: string,
    description: string,
    keywords: seq<string>,
    version: string,
    autoActivate: bool,
    estimatedTokens: nat)

  /**
   * The fields a skill's YAML frontmatter may set, each absent or already of
   * the type `SkillMetadata` demands.
   */
  datatype Frontmatter = Frontmatter(
    name: Option<string>,
    title: Option<string>,
    description: Option<string>,
    keywords: Option<seq<string>>,
    version: Option<string>,
    autoActivate: Option<bool>)

  /**
   * `yaml.safe_load` on the frontmatter block, followed by the field reads and
   * the type validation of `SkillMetadata`. `None` stands for any exception on
   * that path: malformed YAML, a document that is not a mapping, or a field of
   * the wrong type.
   */
  type YamlLoader = string -> Option<Frontmatter>

  /** The frontmatter delimiter. */
  const Delim: string := "---"

  const DefaultVersion: string := "1.0.0"

  /** `_estimate_tokens`: one token per four characters, rounded down. */
  function EstimateTokens(text: string): (t: nat)
    ensures 4 * t <= |text| < 4 * t + 4
  {
    |text| / 4
  }

  /** A text that opens with `---` splits there first, leaving an empty part before it. */
  lemma LeadingDelimSplit(text: string)
    requires StartsWith(text, Delim)
    ensures Split(text, Delim, 2) == [[]] + Split(text[|Delim|..], Delim, 1)
  {
    assert OccursAt(text, Delim, 0);
    assert Find(text, Delim, 0) == Some(0);
  }

  /**
   * The text starts with `---` and `text.split('---', 2)` yields three parts,
   * the frontmatter block being the middle one: that is, a second `---`
   * follows the opening one.
   */
  predicate HasFrontmatter(text: string)
    ensures HasFrontmatter(text) <==> StartsWith(text, Delim) && Contains(text[|Delim|..], Delim)
  {
    if StartsWith(text, Delim) then
      LeadingDelimSplit(text);
      var tail := Split(text[|Delim|..], Delim, 1);
      assert |tail| == 2 ==> text[|Delim|..] == tail[0] + Delim + tail[1] && OccursAt(text[|Delim|..], Delim, |tail[0]|) by {
        if |tail| == 2 {
          assert Join(tail, Delim) == tail[0] + Delim + tail[1];
          assert (tail[0] + Delim + tail[1])[|tail[0]|..|tail[0]| + |Delim|] == Delim;
        }
      }
      |Split(text, Delim, 2)| == 3
    else false
  }

  /**
   * The YAML block between the two delimiters: it holds no `---`, and it does
   * not end in `-` (else the closing delimiter would start earlier).
   */
  function Header(text: string): (h: string)
    requires HasFrontmatter(text)
    ensures !Contains(h, Delim)
    ensures h == [] || h[|h| - 1] != '-'
  {
    var h := Split(text, Delim, 2)[1];
    TrailingDashJoinsDelim(h);
    h
  }

  /** A block ending in `-`, followed by the first two characters of `---`, holds `---`. */
  lemma TrailingDashJoinsDelim(h: string)
    ensures h != [] && h[|h| - 1] == '-' ==> OccursAt(h + Delim[..2], Delim, |h| - 1)
  {
    if h != [] && h[|h| - 1] == '-' {
      assert (h + Delim[..2])[|h| - 1..|h| + 2] == Delim;
    }
  }

  /** Everything after the second delimiter. */
  function Body(text: string): (b: string)
    requires HasFrontmatter(text)
    ensures |Header(text)| + 2 * |Delim| <= |text| && b == text[|Header(text)| + 2 * |Delim|..]
  {
    var parts := Split(text, Delim, 2);
    ThreePartLayout(text, parts);
    SuffixAfterLayout(text, parts[1], parts[2]);
    parts[2]
  }

  /** Three parts of a text that opens with `---` lay it out as `---`, the block, `---`, the body. */
  lemma ThreePartLayout(text: string, parts: seq<string>)
    requires StartsWith(text, Delim) && parts == Split(text, Delim, 2) && |parts| == 3
    ensures text == Delim + parts[1] + Delim + parts[2]
  {
    LeadingDelimSplit(text);
    JoinOfThree(parts, Delim);
  }

  /** `sep.join` of three parts. */
  lemma JoinOfThree(parts: seq<string>, sep: string)
    requires |parts| == 3
    ensures Join(parts, sep) == parts[0] + sep + parts[1] + sep + parts[2]
  {
    assert Join(parts[1..], sep) == parts[1] + sep + Join(parts[2..], sep);
    assert Join(parts[2..], sep) == parts[2];
  }

  /** What follows `---`, a block and `---` is the rest of the text. */
  lemma SuffixAfterLayout(text: string, header: string, body: string)
    requires text == Delim + header + Delim + body
    ensures |header| + 2 * |Delim| <= |text| && text[|header| + 2 * |Delim|..] == body
  {
    assert text == (Delim + header + Delim) + body;
  }

  /** A file with frontmatter is `---`, a block free of `---`, `---`, then the body. */
  lemma FrontmatterLayout(text: string)
    requires HasFrontmatter(text)
    ensures text == Delim + Header(text) + Delim + Body(text)
    ensures !Contains(Header(text), Delim)
    ensures Header(text) == [] || Header(text)[|Header(text)| - 1] != '-'
  {
    var parts := Split(text, Delim, 2);
    assert OccursAt(text, Delim, 0);
    assert Find(text, Delim, 0) == Some(0);
    assert parts[0] == [];
    assert Join(parts, Delim) == parts[0] + Delim + (parts[1] + Delim + parts[2]);
  }

  /**
   * Conversely, writing `---`, a block, `---` and a body gives a text whose
   * frontmatter is that block and whose body is that body, provided the block
   * holds no `---` and does not end in `-` (else the closing delimiter would
   * be found earlier).
   */
  lemma {:induction false} FrontmatterOfLayout(header: string, body: string)
    requires !Contains(header, Delim)
    requires header == [] || header[|header| - 1] != '-'
    ensures HasFrontmatter(Delim + header + Delim + body)
    ensures Header(Delim + header + Delim + body) == header
    ensures Body(Delim + header + Delim + body) == body
  {
    var text := Delim + header + Delim + body;
    assert text[..3] == Delim;
    assert OccursAt(text, Delim, 0);
    var rest := text[3..];
    assert rest == header + Delim + body;
    assert OccursAt(rest, Delim, |header|) by {
      assert rest[|header|..|header| + 3] == Delim;
    }
    forall j: nat | j < |header|
      ensures !OccursAt(rest, Delim, j)
    {
      if j + 3 <= |header| {
        assert header[j..j + 3] == rest[j..j + 3];
        assert !OccursAt(header, Delim, j);
      } else {
        // the match would cover the last character of the block, which is not '-'
        assert rest[|header| - 1] == header[|header| - 1];
        assert rest[j..j + 3][|header| - 1 - j] == rest[|header| - 1];
      }
    }
    assert Find(rest, Delim, 0) == Some(|header|);
    assert rest[|header| + 3..] == body;
    assert Split(text, Delim, 2) == [[], header, body];
  }

  /**
   * `_parse_skill_metadata` on the text of the file whose stem is `stem`:
   * files without frontmatter, and those whose frontmatter `yaml` rejects, fail;
   * every field the frontmatter leaves out takes its default.
   */
  function ParseMetadata(stem: string, text: string, yaml: YamlLoader): (r: Option<SkillMetadata>)
    ensures r.Some? <==> HasFrontmatter(text) && yaml(Header(text)).Some?
  {
    if !StartsWith(text, Delim) then None
    else
      var parts := Split(text, Delim, 2);
      if |parts| < 3 then None
      else
        match yaml(parts[1])
        case None => None
        case Some(fm) =>
          Some(SkillMetadata(
            name := fm.name.GetOr(stem),
            title := fm.title.GetOr(Title(Replace(stem, '-', ' '))),
            description := fm.description.GetOr(""),
            keywords := fm.keywords.GetOr([]),
            version := fm.version.GetOr(DefaultVersion),
            autoActivate := fm.autoActivate.GetOr(true),
            estimatedTokens := EstimateTokens(Strip(parts[2]))))
  }

  /**
   * Every field the frontmatter sets is taken as is; every field it leaves out
   * takes its default: the file stem for the name, the stem with dashes as
   * spaces in title case for the title, empty description and keywords,
   * version 1.0.0 and auto-activation on. The token estimate is that of the
   * stripped body.
   */
  lemma ParseFieldDefaults(stem: string, text: string, yaml: YamlLoader, m: SkillMetadata)
    requires ParseMetadata(stem, text, yaml) == Some(m)
    ensures HasFrontmatter(text) && yaml(Header(text)).Some?
    ensures var fm := yaml(Header(text)).value;
      && (fm.name.None? ==> m.name == stem)
      && (fm.name.Some? ==> m.name == fm.name.value)
      && (fm.title.None? ==> m.title == Title(Replace(stem, '-', ' ')))
      && (fm.title.Some? ==> m.title == fm.title.value)
      && (fm.description.None? ==> m.description == "")
      && (fm.description.Some? ==> m.description == fm.description.value)
      && (fm.keywords.None? ==> m.keywords == [])
      && (fm.keywords.Some? ==> m.keywords == fm.keywords.value)
      && (fm.version.None? ==> m.version == DefaultVersion)
      && (fm.version.Some? ==> m.version == fm.version.value)
      && (fm.autoActivate.None? ==> m.autoActivate)
      && (fm.autoActivate.Some? ==> m.autoActivate == fm.autoActivate.value)
    ensures IsTrimOf(StripFrontmatter(text), Body(text))
    ensures 4 * m.estimatedTokens <= |StripFrontmatter(text)| < 4 * m.estimatedTokens + 4
  {
  }

  /**
   * The content `load_skill_content` hands out: text with frontmatter loses
   * it and the whitespace around the body; any other text is kept verbatim.
   */
  function StripFrontmatter(text: string): (content: string)
    ensures HasFrontmatter(text) ==> IsTrimOf(content, Body(text))
    ensures !HasFrontmatter(text) ==> content == text
  {
    if StartsWith(text, Delim) then
      var parts := Split(text, Delim, 2);
      if |parts| >= 3 then Strip(parts[2]) else text
    else text
  }

  /**
   * The token estimate recorded at scan time is the estimate for exactly the
   * content a load of the same text returns.
   */
  lemma ParsedTokensMatchContent(stem: string, text: string, yaml: YamlLoader)
    requires ParseMetadata(stem, text, yaml).Some?
    ensures ParseMetadata(stem, text, yaml).value.estimatedTokens == EstimateTokens(StripFrontmatter(text))
  {
  }
}
