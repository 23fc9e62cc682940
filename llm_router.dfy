/**
 * Rule-based recommendation of a language model for a task prompt and an
 * optional target location, with rough token estimates.
 */
module LlmRouter {
  import opened Wrappers

  /** A model's profile; the per-1k-token costs only feed the cost estimate. */
  datatype ModelProfile = ModelProfile(
    name: string,
    provider: string,
    costPer1kInput: real,
    costPer1kOutput: real,
    latency: string,
    strengths: seq<string>,
    weaknesses: seq<string>)

  const Gemini: string := "gemini-2.5-flash-preview-05-20"
  const Gpt: string := "gpt-4-turbo"
  const Claude: string := "claude-3-sonnet"

  const ModelProfiles: seq<ModelProfile> := [
    ModelProfile(Gemini, "google", 0.00025, 0.0005, "fast",
                 ["fast", "low cost", "codegen", "general tasks"], ["long documents", "deep reasoning"]),
    ModelProfile(Gpt, "openai", 0.01, 0.03, "medium",
                 ["high quality", "complex reasoning", "tool use", "codegen"], ["cost"]),
    ModelProfile(Claude, "anthropic", 0.003, 0.015, "medium",
                 ["structured writing", "markdown/docs", "explanation"], ["less deterministic code edits"])
  ]

  /** The first profile in `profiles` called `name`, if any. */
  function FindIn(profiles: seq<ModelProfile>, name: string): (r: Option<ModelProfile>)
    ensures r.Some? ==> r.value in profiles && r.value.name == name
    ensures r.None? <==> forall p :: p in profiles ==> p.name != name
  {
    if profiles == [] then None
    else if profiles[0].name == name then Some(profiles[0])
    else FindIn(profiles[1..], name)
  }

  function FindProfile(name: string): Option<ModelProfile> {
    FindIn(ModelProfiles, name)
  }

  /** The four recommendation rules, in the order they are tried. */
  datatype Rule = DocEdit | SimpleCode | ComplexCode | Fallback

  function Reason(rule: Rule): string {
    match rule
    case DocEdit => "Markdown/document editing task"
    case SimpleCode => "Simple codegen task in JS/CSS/etc."
    case ComplexCode => "Complex code reasoning/refactor required"
    case Fallback => "Default fallback for general tasks"
  }

  function ModelFor(rule: Rule): string {
    match rule
    case DocEdit => Claude
    case SimpleCode => Gemini
    case ComplexCode => Gpt
    case Fallback => Gemini
  }

  function RuleRank(rule: Rule): nat {
    match rule
    case DocEdit => 0
    case SimpleCode => 1
    case ComplexCode => 2
    case Fallback => 3
  }

  /** A suggestion as returned to the caller (its cost estimate is not modelled). */
  datatype Suggestion = Suggestion(
    model: string,
    provider: string,
    latency: string,
    reason: string,
    strengths: seq<string>,
    weaknesses: seq<string>)

  datatype Recommendation = Recommendation(
    inferredLocation: Option<string>,
    suggestions: seq<Suggestion>,
    inputTokenEstimate: nat,
    outputTokenEstimate: int)

  /** Each model the rules can pick has a profile. */
  lemma PickedModelsHaveProfiles()
    ensures FindProfile(Gemini) == Some(ModelProfiles[0])
    ensures FindProfile(Gpt) == Some(ModelProfiles[1])
    ensures FindProfile(Claude) == Some(ModelProfiles[2])
    ensures forall rule :: FindProfile(ModelFor(rule)).Some?
  {
    assert ModelProfiles[0].name != Gpt && ModelProfiles[0].name != Claude;
    assert ModelProfiles[1..][0].name != Claude;
  }

  /** The suggested model's profile fields are copied into the suggestion. */
  predicate CopiesProfile(s: Suggestion, profile: ModelProfile) {
    && s.model == profile.name
    && s.provider == profile.provider
    && s.latency == profile.latency
    && s.strengths == profile.strengths
    && s.weaknesses == profile.weaknesses
  }

  /**
   * The suggestion a rule produces: the rule's reason, and the profile of the
   * rule's model, which the table always holds.
   */
  function Suggest(rule: Rule): (r: Suggestion)
    ensures r.reason == Reason(rule) && r.model == ModelFor(rule)
    ensures FindProfile(ModelFor(rule)).Some? && CopiesProfile(r, FindProfile(ModelFor(rule)).value)
  {
    PickedModelsHaveProfiles();
    var profile := FindProfile(ModelFor(rule)).value;
    Suggestion(profile.name, profile.provider, profile.latency, Reason(rule), profile.strengths, profile.weaknesses)
  }

  /** Rule order read back from a suggestion's reason. */
  function Rank(s: Suggestion): nat {
    if s.reason == Reason(DocEdit) then 0
    else if s.reason == Reason(SimpleCode) then 1
    else if s.reason == Reason(ComplexCode) then 2
    else 3
  }

  /** A suggestion keeps its rule's rank, so different rules give different suggestions. */
  lemma SuggestionRank(rule: Rule)
    ensures Rank(Suggest(rule)) == RuleRank(rule)
    ensures forall other :: Suggest(other) == Suggest(rule) ==> other == rule
  {
    ReasonsDistinct();
    assert Suggest(rule).reason == Reason(rule);
    forall other | Suggest(other) == Suggest(rule) ensures other == rule {
      assert Suggest(other).reason == Reason(other);
    }
  }

  /** Attaches each rule's model profile, keeping the rules' order. */
  function SuggestAll(rules: seq<Rule>): (r: seq<Suggestion>)
    ensures |r| == |rules|
    ensures forall i :: 0 <= i < |rules| ==> r[i] == Suggest(rules[i])
  {
    seq(|rules|, i requires 0 <= i < |rules| => Suggest(rules[i]))
  }

  /**
   * The mapped list holds a rule's suggestion exactly when the rule fired,
   * copies profiles, and keeps the rules' order.
   */
  lemma SuggestAllFaithful(rules: seq<Rule>)
    ensures forall rule :: Suggest(rule) in SuggestAll(rules) <==> rule in rules
    ensures forall s :: s in SuggestAll(rules) ==> exists rule :: s == Suggest(rule)
    ensures forall s :: s in SuggestAll(rules) ==> FindProfile(s.model).Some? && CopiesProfile(s, FindProfile(s.model).value)
    ensures (forall j, k :: 0 <= j < k < |rules| ==> RuleRank(rules[j]) < RuleRank(rules[k])) ==>
      forall j, k :: 0 <= j < k < |rules| ==> Rank(SuggestAll(rules)[j]) < Rank(SuggestAll(rules)[k])
  {
    var r := SuggestAll(rules);
    forall rule ensures Suggest(rule) in r <==> rule in rules {
      SuggestionRank(rule);
      if rule in rules {
        var i :| 0 <= i < |rules| && rules[i] == rule;
        assert r[i] == Suggest(rule);
      }
    }
    forall s | s in r ensures FindProfile(s.model).Some? && CopiesProfile(s, FindProfile(s.model).value) {
      var i :| 0 <= i < |r| && r[i] == s;
      assert s == Suggest(rules[i]);
    }
    forall j, k | 0 <= j < k < |rules| ensures Rank(r[j]) == RuleRank(rules[j]) && Rank(r[k]) == RuleRank(rules[k]) {
      SuggestionRank(rules[j]);
      SuggestionRank(rules[k]);
    }
  }

  /** No two rules give the same reason. */
  lemma ReasonsDistinct()
    ensures forall r1, r2 :: Reason(r1) == Reason(r2) ==> r1 == r2
  {
    assert Reason(DocEdit)[0] == 'M' && Reason(SimpleCode)[0] == 'S';
    assert Reason(ComplexCode)[0] == 'C' && Reason(Fallback)[0] == 'D';
  }

  /** ASCII upper-case letters become lower-case; every other character is kept. */
  function Lower(s: string): (r: string)
    ensures |r| == |s|
    ensures forall i :: 0 <= i < |r| ==> !('A' <= r[i] <= 'Z')
  {
    seq(|s|, i requires 0 <= i < |s| => if 'A' <= s[i] <= 'Z' then (s[i] as int + 32) as char else s[i])
  }

  /** The characters the language's string trimming removes. */
  predicate IsWhitespace(c: char) {
    c in {'\U{0009}', '\U{000A}', '\U{000B}', '\U{000C}', '\U{000D}', '\U{0020}', '\U{00A0}', '\U{1680}',
          '\U{2000}', '\U{2001}', '\U{2002}', '\U{2003}', '\U{2004}', '\U{2005}', '\U{2006}', '\U{2007}',
          '\U{2008}', '\U{2009}', '\U{200A}', '\U{2028}', '\U{2029}', '\U{202F}', '\U{205F}', '\U{3000}',
          '\U{FEFF}'}
  }

  function TrimStart(s: string): string {
    if |s| > 0 && IsWhitespace(s[0]) then TrimStart(s[1..]) else s
  }

  function TrimEnd(s: string): string {
    if |s| > 0 && IsWhitespace(s[|s| - 1]) then TrimEnd(s[..|s| - 1]) else s
  }

  /**
   * The text with its leading and trailing whitespace removed: a slice of the
   * text that neither starts nor ends with whitespace, with only whitespace
   * around it.
   */
  function Trim(s: string): (r: string)
    ensures |r| > 0 ==> !IsWhitespace(r[0]) && !IsWhitespace(r[|r| - 1])
    ensures exists i :: && OccursAt(s, r, i)
                        && (forall j :: 0 <= j < i ==> IsWhitespace(s[j]))
                        && (forall j :: i + |r| <= j < |s| ==> IsWhitespace(s[j]))
  {
    var t := TrimStart(s);
    TrimStartDropsLeadingWhitespace(s);
    TrimEndDropsTrailingWhitespace(t);
    var r := TrimEnd(t);
    var i := |s| - |t|;
    assert s[i..i + |r|] == r;
    assert forall j :: i + |r| <= j < |s| ==> s[j] == t[j - i];
    assert OccursAt(s, r, i);
    r
  }

  /** `part` occurs somewhere in `s`. */
  predicate Contains(s: string, part: string) {
    part <= s || (|s| > 0 && Contains(s[1..], part))
  }

  predicate EndsWith(s: string, suffix: string) {
    |suffix| <= |s| && s[|s| - |suffix|..] == suffix
  }

  /** Trimming the start drops exactly the leading run of whitespace. */
  lemma {:induction false} TrimStartDropsLeadingWhitespace(s: string)
    ensures var t := TrimStart(s);
      && |t| <= |s| && t == s[|s| - |t|..]
      && (forall i :: 0 <= i < |s| - |t| ==> IsWhitespace(s[i]))
      && (|t| > 0 ==> !IsWhitespace(t[0]))
  {
    if |s| > 0 && IsWhitespace(s[0]) {
      TrimStartDropsLeadingWhitespace(s[1..]);
      var t := TrimStart(s);
      assert t == TrimStart(s[1..]);
      forall i | 0 <= i < |s| - |t| ensures IsWhitespace(s[i]) {
        if i > 0 {
          assert s[i] == s[1..][i - 1];
        }
      }
    }
  }

  /** Trimming the end drops exactly the trailing run of whitespace. */
  lemma {:induction false} TrimEndDropsTrailingWhitespace(s: string)
    ensures var t := TrimEnd(s);
      && |t| <= |s| && t == s[..|t|]
      && (forall i :: |t| <= i < |s| ==> IsWhitespace(s[i]))
      && (|t| > 0 ==> !IsWhitespace(t[|t| - 1]))
  {
    if |s| > 0 && IsWhitespace(s[|s| - 1]) {
      TrimEndDropsTrailingWhitespace(s[..|s| - 1]);
      var t := TrimEnd(s);
      assert t == TrimEnd(s[..|s| - 1]);
      forall i | |t| <= i < |s| ensures IsWhitespace(s[i]) {
        if i < |s| - 1 {
          assert s[i] == s[..|s| - 1][i];
        }
      }
    }
  }

  /** `part` occurs in `s` starting at position `i`. */
  predicate OccursAt(s: string, part: string, i: int) {
    0 <= i && i + |part| <= |s| && s[i..i + |part|] == part
  }

  /** `Contains` holds exactly when `part` occurs at some position of `s`. */
  lemma {:induction false} ContainsOccurrence(s: string, part: string)
    ensures Contains(s, part) <==> exists i :: OccursAt(s, part, i)
  {
    if part <= s {
      assert OccursAt(s, part, 0);
    } else if |s| > 0 {
      ContainsOccurrence(s[1..], part);
      if Contains(s[1..], part) {
        var i :| OccursAt(s[1..], part, i);
        assert s[i + 1..i + 1 + |part|] == s[1..][i..i + |part|];
        assert OccursAt(s, part, i + 1);
      }
      if exists i :: OccursAt(s, part, i) {
        var i :| OccursAt(s, part, i);
        if i == 0 {
          assert false;
        } else {
          assert s[1..][i - 1..i - 1 + |part|] == s[i..i + |part|];
          assert OccursAt(s[1..], part, i - 1);
        }
      }
    } else {
      if exists i :: OccursAt(s, part, i) {
        assert false;
      }
    }
  }

  /**
   * The location, lower-cased and trimmed, names a README, a Markdown file or
   * something under a doc/ or docs/ directory.
   */
  predicate IsDocEdit(location: string)
    ensures var n := Trim(Lower(location));
      IsDocEdit(location) <==>
        exists i :: OccursAt(n, "readme", i) || OccursAt(n, ".md", i) || OccursAt(n, "doc/", i) || OccursAt(n, "docs/", i)
  {
    var normalized := Trim(Lower(location));
    ContainsOccurrence(normalized, "readme");
    ContainsOccurrence(normalized, ".md");
    ContainsOccurrence(normalized, "doc/");
    ContainsOccurrence(normalized, "docs/");
    Contains(normalized, "readme") || Contains(normalized, ".md")
    || Contains(normalized, "doc/") || Contains(normalized, "docs/")
  }

  /** The file extensions the router treats as web code. */
  const CodeExtensions: set<string> := {"js", "ts", "jsx", "tsx", "css", "scss", "html"}

  /** Position `i` of the location is a dot followed, up to the end, by a web-code extension in any letter case. */
  predicate DotExtensionAt(location: string, i: int) {
    0 <= i < |location| && location[i] == '.' && Lower(location[i + 1..]) in CodeExtensions
  }

  /**
   * The location, untrimmed, ends in a web-code file extension, in any
   * letter case: some dot is followed by such an extension and nothing else.
   */
  predicate IsCode(location: string)
    ensures IsCode(location) <==> exists i :: DotExtensionAt(location, i)
  {
    CodeByExtension(location);
    exists e :: e in CodeExtensions && EndsWith(Lower(location), "." + e)
  }

  /** Lower-casing commutes with dropping a prefix. */
  lemma LowerSuffix(s: string, a: nat)
    requires a <= |s|
    ensures Lower(s[a..]) == Lower(s)[a..]
  {
  }

  /** The lower-cased location ends in `.e` exactly when the location has a dot followed by `e` in some letter case. */
  lemma DotSuffix(location: string, e: string)
    ensures EndsWith(Lower(location), "." + e) <==>
      |e| < |location| && location[|location| - |e| - 1] == '.' && Lower(location[|location| - |e|..]) == e
  {
    if |e| < |location| {
      var l := Lower(location);
      var i := |location| - |e| - 1;
      LowerSuffix(location, i + 1);
      assert l[i] == '.' <==> location[i] == '.';
      assert l[i..] == [l[i]] + l[i + 1..];
      if l[i..] == "." + e {
        assert l[i] == (l[i..])[0] == '.';
        assert l[i + 1..] == (l[i..])[1..] == e;
      }
      if l[i] == '.' && l[i + 1..] == e {
        assert l[i..] == "." + e;
      }
    }
  }

  /** The extension test on the lower-cased location is the dot-and-extension test on the location. */
  lemma CodeByExtension(location: string)
    ensures (exists e :: e in CodeExtensions && EndsWith(Lower(location), "." + e))
      <==> exists i :: DotExtensionAt(location, i)
  {
    if exists e :: e in CodeExtensions && EndsWith(Lower(location), "." + e) {
      var e :| e in CodeExtensions && EndsWith(Lower(location), "." + e);
      ExtensionHasDot(location, e);
    }
    if exists i :: DotExtensionAt(location, i) {
      var i :| DotExtensionAt(location, i);
      DotHasExtension(location, i);
    }
  }

  lemma ExtensionHasDot(location: string, e: string)
    requires e in CodeExtensions && EndsWith(Lower(location), "." + e)
    ensures DotExtensionAt(location, |location| - |e| - 1)
  {
    DotSuffix(location, e);
    var i := |location| - |e| - 1;
    assert location[i + 1..] == location[|location| - |e|..];
  }

  lemma DotHasExtension(location: string, i: int)
    requires DotExtensionAt(location, i)
    ensures var e := Lower(location[i + 1..]); e in CodeExtensions && EndsWith(Lower(location), "." + e)
  {
    var e := Lower(location[i + 1..]);
    assert |e| == |location| - i - 1;
    DotSuffix(location, e);
    assert location[|location| - |e|..] == location[i + 1..];
  }

  predicate IsSimple(taskPrompt: string) {
    |taskPrompt| < 100
  }

  /** The prompt is long, or names an analysis or restructuring task in any letter case. */
  predicate IsComplex(taskPrompt: string)
    ensures var p := Lower(taskPrompt);
      IsComplex(taskPrompt) <==>
        || |taskPrompt| > 300
        || exists i :: || OccursAt(p, "analyze", i) || OccursAt(p, "refactor", i)
                       || OccursAt(p, "redesign", i) || OccursAt(p, "multi-step", i)
  {
    var p := Lower(taskPrompt);
    ContainsOccurrence(p, "analyze");
    ContainsOccurrence(p, "refactor");
    ContainsOccurrence(p, "redesign");
    ContainsOccurrence(p, "multi-step");
    |taskPrompt| > 300
    || Contains(p, "analyze") || Contains(p, "refactor") || Contains(p, "redesign") || Contains(p, "multi-step")
  }

  /** Lower-casing twice is lower-casing once, so the classifications ignore letter case. */
  lemma ClassificationIgnoresCase(s: string)
    ensures Lower(Lower(s)) == Lower(s)
    ensures IsDocEdit(Lower(s)) == IsDocEdit(s)
    ensures IsCode(Lower(s)) == IsCode(s)
    ensures IsComplex(Lower(s)) == IsComplex(s)
  {
    assert Lower(Lower(s)) == Lower(s);
  }

  /** The rule list the router builds from the four classifications, in the order it pushes them. */
  method PickRules(isDocEdit: bool, isCode: bool, isSimple: bool, isComplex: bool) returns (rules: seq<Rule>)
    ensures 1 <= |rules| <= 3
    ensures DocEdit in rules <==> isDocEdit
    ensures SimpleCode in rules <==> isCode && isSimple
    ensures ComplexCode in rules <==> isCode && isComplex
    ensures Fallback in rules <==> !isDocEdit && !(isCode && (isSimple || isComplex))
    ensures forall j, k :: 0 <= j < k < |rules| ==> RuleRank(rules[j]) < RuleRank(rules[k])
  {
    rules := [];
    if isDocEdit {
      rules := rules + [DocEdit];
    }
    if isCode && isSimple {
      rules := rules + [SimpleCode];
    }
    if isCode && isComplex {
      rules := rules + [ComplexCode];
    }
    if |rules| == 0 {
      rules := rules + [Fallback];
    }
  }

  /**
   * Recommends models for a task. `inferLocation` stands for the verb-based
   * hint ("update|edit|modify <rest>") that supplies a location when none
   * was given.
   */
  method RecommendModels(inferLocation: string -> Option<string>, taskPrompt: string := "",
                         location: string := "", estimatedOutputTokens: int := 150)
    returns (r: Recommendation)
    ensures |taskPrompt| <= 4 * r.inputTokenEstimate < |taskPrompt| + 4
    ensures r.outputTokenEstimate == estimatedOutputTokens
    ensures location != "" ==> r.inferredLocation == Some(location)
    ensures location == "" ==>
      (r.inferredLocation.Some? <==> inferLocation(taskPrompt).Some? && inferLocation(taskPrompt).value != "")
      && (r.inferredLocation.Some? ==> r.inferredLocation == inferLocation(taskPrompt))
    ensures r.inferredLocation != Some("")
    ensures 1 <= |r.suggestions| <= 3
    ensures var loc := r.inferredLocation.GetOr("");
      && (Suggest(DocEdit) in r.suggestions <==> IsDocEdit(loc))
      && (Suggest(SimpleCode) in r.suggestions <==> IsCode(loc) && IsSimple(taskPrompt))
      && (Suggest(ComplexCode) in r.suggestions <==> IsCode(loc) && IsComplex(taskPrompt))
      && (Suggest(Fallback) in r.suggestions <==>
            !IsDocEdit(loc) && !(IsCode(loc) && (IsSimple(taskPrompt) || IsComplex(taskPrompt))))
    ensures |taskPrompt| > 300 ==>
      && Suggest(SimpleCode) !in r.suggestions
      && (Suggest(ComplexCode) in r.suggestions <==> IsCode(r.inferredLocation.GetOr("")))
    ensures forall s :: s in r.suggestions ==> exists rule :: s == Suggest(rule)
    ensures forall s :: s in r.suggestions ==> FindProfile(s.model).Some? && CopiesProfile(s, FindProfile(s.model).value)
    ensures forall j, k :: 0 <= j < k < |r.suggestions| ==> Rank(r.suggestions[j]) < Rank(r.suggestions[k])
  {
    var inputTokens := (|taskPrompt| + 3) / 4;

    var loc := location;
    if loc == "" {
      var hint := inferLocation(taskPrompt);
      if hint.Some? {
        loc := hint.value;
      }
    }

    var recommendations := PickRules(IsDocEdit(loc), IsCode(loc), IsSimple(taskPrompt), IsComplex(taskPrompt));
    var suggestions := SuggestAll(recommendations);
    SuggestAllFaithful(recommendations);
    r := Recommendation(if loc == "" then None else Some(loc), suggestions, inputTokens, estimatedOutputTokens);
    assert r.inferredLocation.GetOr("") == loc;
  }
}
