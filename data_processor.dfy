/** Size categories, per-category quotas and the store of collected projects
    (github_project_extractor/data_processor.py). */
module DataProcessing {
  import opened Common

  /** A named, closed range `[minLines, maxLines]` of lines of code. */
  datatype SizeCategory = SizeCategory(name: string, minLines: int, maxLines: int)

  /** The configuration values the core reads. `sizeCategories` keeps the
      order of the configuration mapping. */
  datatype Config = Config(
    sizeCategories: seq<SizeCategory>,
    projectsPerCategory: int,
    languages: seq<string>,
    targetYear: int)

  /** One accepted repository, as written to the output file. */
  datatype Project = Project(
    name: string,
    fullName: string,
    url: string,
    apiUrl: string,
    description: Option<string>,
    stars: int,
    forks: int,
    language: string,
    sizeCategory: string,
    linesOfCode: nat,
    contributorsCount: nat,
    createdAt: string,
    lastCommitDate: string,
    isArchived: bool,
    isFork: bool)

  /** language -> size category -> projects recorded, in acceptance order. */
  type Projects = map<string, map<string, seq<Project>>>

  predicate InRange(category: SizeCategory, lines: int)
  {
    category.minLines <= lines <= category.maxLines
  }

  function CategoryNames(categories: seq<SizeCategory>): set<string>
  {
    set i | 0 <= i < |categories| :: categories[i].name
  }

  // ---------------------------------------------------------------- get_size_category

  /** `categories[i]` holds `lines` and no earlier category does. */
  predicate FirstMatchAt(categories: seq<SizeCategory>, lines: int, i: int)
  {
    0 <= i < |categories| && InRange(categories[i], lines)
    && forall j :: 0 <= j < i ==> !InRange(categories[j], lines)
  }

  /** The first category, in configuration order, whose range holds `lines`. */
  function GetSizeCategory(categories: seq<SizeCategory>, lines: int): (r: Option<string>)
    ensures r.Some? ==> exists i :: FirstMatchAt(categories, lines, i) && categories[i].name == r.value
    ensures r.None? <==> forall i :: 0 <= i < |categories| ==> !InRange(categories[i], lines)
    ensures r.Some? ==> r.value in CategoryNames(categories)
  {
    if categories == [] then None
    else if InRange(categories[0], lines) then
      assert FirstMatchAt(categories, lines, 0);
      Some(categories[0].name)
    else
      var r := GetSizeCategory(categories[1..], lines);
      assert r.Some? ==> exists i :: FirstMatchAt(categories, lines, i) && categories[i].name == r.value by {
        if r.Some? {
          var i :| FirstMatchAt(categories[1..], lines, i) && categories[1..][i].name == r.value;
          assert forall j :: 1 <= j < i + 1 ==> categories[j] == categories[1..][j - 1];
          assert FirstMatchAt(categories, lines, i + 1);
        }
      }
      r
  }

  /** Conversely: a category that holds `lines`, with no earlier one that
      does, is the one returned. */
  lemma {:induction false} GetSizeCategoryFirstMatch(categories: seq<SizeCategory>, lines: int, i: nat)
    requires i < |categories| && InRange(categories[i], lines)
    requires forall j :: 0 <= j < i ==> !InRange(categories[j], lines)
    ensures GetSizeCategory(categories, lines) == Some(categories[i].name)
  {
    if i > 0 {
      GetSizeCategoryFirstMatch(categories[1..], lines, i - 1);
    }
  }

  /** Ranges that no line count shares. */
  predicate Disjoint(categories: seq<SizeCategory>)
  {
    forall i, j :: 0 <= i < j < |categories| ==>
      categories[i].maxLines < categories[j].minLines || categories[j].maxLines < categories[i].minLines
  }

  /** With disjoint ranges the order does not matter: the category is the
      unique one that holds `lines`. */
  lemma UniqueCategory(categories: seq<SizeCategory>, lines: int, i: nat)
    requires Disjoint(categories)
    requires i < |categories| && InRange(categories[i], lines)
    ensures GetSizeCategory(categories, lines) == Some(categories[i].name)
  {
    GetSizeCategoryFirstMatch(categories, lines, i);
  }

  // ---------------------------------------------------------------- the projects store

  /** `projects[language][category]`, an empty list for a category never
      written (the `defaultdict(list)` of the source). */
  function Recorded(projects: Projects, language: string, category: string): seq<Project>
    requires language in projects
  {
    if category in projects[language] then projects[language][category] else []
  }

  /** The store right after construction: one empty mapping per configured language. */
  function InitialProjects(languages: seq<string>): Projects
  {
    map l | l in languages :: map[]
  }

  /** What `get_remaining_counts(language)` computes from the recorded
      projects: one entry per configured category, the quota minus what is
      recorded, floored at zero. A category is used up exactly when it has
      reached its quota. */
  function Quota(projects: Projects, categories: seq<SizeCategory>, projectsPerCategory: int,
                 language: string): (remaining: map<string, int>)
    requires language in projects
    ensures remaining.Keys == CategoryNames(categories)
    ensures forall c :: c in remaining ==> remaining[c] >= 0
    ensures forall c :: c in remaining ==>
      (remaining[c] == 0 <==> |Recorded(projects, language, c)| >= projectsPerCategory)
  {
    map c | c in CategoryNames(categories) :: Max(0, projectsPerCategory - |Recorded(projects, language, c)|)
  }

  /** Freshly constructed, every category still needs the full quota. */
  lemma InitialQuota(languages: seq<string>, categories: seq<SizeCategory>, projectsPerCategory: int,
                     language: string)
    requires language in languages
    ensures forall c :: c in CategoryNames(categories) ==>
      Quota(InitialProjects(languages), categories, projectsPerCategory, language)[c] == Max(0, projectsPerCategory)
  {
  }

  /** The store after `projects[language][category].append(record)`. */
  function AddRecord(projects: Projects, language: string, category: string, record: Project): Projects
    requires language in projects
  {
    projects[language := projects[language][category := Recorded(projects, language, category) + [record]]]
  }

  /** Appending changes one list, by one record at its end, and nothing else. */
  lemma AddRecordRecorded(projects: Projects, language: string, category: string, record: Project)
    requires language in projects
    ensures AddRecord(projects, language, category, record).Keys == projects.Keys
    ensures forall l, c :: l in projects ==>
      Recorded(AddRecord(projects, language, category, record), l, c) ==
        if l == language && c == category then Recorded(projects, l, c) + [record] else Recorded(projects, l, c)
  {
  }

  /** Taking one slot of a category with room left, in place, gives what
      `get_remaining_counts` would recompute after the append: the quota
      map `collect_projects` decrements stays the recomputed one. */
  lemma AddRecordQuota(projects: Projects, categories: seq<SizeCategory>, projectsPerCategory: int,
                       language: string, category: string, record: Project)
    requires language in projects
    requires category in CategoryNames(categories)
    requires Quota(projects, categories, projectsPerCategory, language)[category] > 0
    ensures Quota(AddRecord(projects, language, category, record), categories, projectsPerCategory, language) ==
      var q := Quota(projects, categories, projectsPerCategory, language); q[category := q[category] - 1]
  {
    var q := Quota(projects, categories, projectsPerCategory, language);
    var p' := AddRecord(projects, language, category, record);
    var q' := Quota(p', categories, projectsPerCategory, language);
    assert Recorded(p', language, category) == Recorded(projects, language, category) + [record];
    forall c | c in q' ensures q'[c] == q[category := q[category] - 1][c] {
      if c != category {
        assert Recorded(p', language, c) == Recorded(projects, language, c);
      }
    }
  }

  // ---------------------------------------------------------------- totals

  function Counts(inner: map<string, seq<Project>>): map<string, nat>
  {
    map c | c in inner :: |inner[c]|
  }

  ghost function LanguageTotals(projects: Projects): map<string, nat>
  {
    map l | l in projects :: SumOver(Counts(projects[l]))
  }

  /** The number of recorded projects over all languages and categories. */
  ghost function TotalProjects(projects: Projects): nat
  {
    SumOver(LanguageTotals(projects))
  }

  /** The full names of all recorded projects. */
  ghost function RecordNames(projects: Projects): set<string>
  {
    set l, c, i | l in projects && c in projects[l] && 0 <= i < |projects[l][c]| :: projects[l][c][i].fullName
  }

  /** As many records as names, and the names of the records are `names`. */
  ghost predicate OneRecordPerName(projects: Projects, names: set<string>)
  {
    TotalProjects(projects) == |names| && RecordNames(projects) == names
  }

  lemma InitialTotals(languages: seq<string>)
    ensures TotalProjects(InitialProjects(languages)) == 0
    ensures RecordNames(InitialProjects(languages)) == {}
  {
    var p := InitialProjects(languages);
    forall l | l in LanguageTotals(p) ensures LanguageTotals(p)[l] == 0 {
      assert Counts(p[l]) == map[];
      SumOverZero(Counts(p[l]));
    }
    SumOverZero(LanguageTotals(p));
  }

  /** The total splits into one language's records and the rest's. */
  lemma TotalSplit(projects: Projects, language: string)
    requires language in projects
    ensures TotalProjects(projects) == SumOver(Counts(projects[language])) + TotalProjects(projects - {language})
  {
    SumOverRemove(LanguageTotals(projects), language);
    assert LanguageTotals(projects - {language}) == RemoveKey(LanguageTotals(projects), language);
  }

  /** One language's records split into one category's and the rest's. */
  lemma CountsSplit(categories: map<string, seq<Project>>, category: string)
    requires category in categories
    ensures SumOver(Counts(categories)) == |categories[category]| + SumOver(Counts(categories - {category}))
  {
    SumOverRemove(Counts(categories), category);
    assert Counts(categories - {category}) == RemoveKey(Counts(categories), category);
  }

  /** One append adds exactly one to the total. */
  lemma AddRecordTotal(projects: Projects, language: string, category: string, record: Project)
    requires language in projects
    ensures TotalProjects(AddRecord(projects, language, category, record)) == TotalProjects(projects) + 1
  {
    var inner := projects[language];
    var before := Recorded(projects, language, category);
    var inner' := inner[category := before + [record]];
    assert Counts(inner') == Counts(inner)[category := |before| + 1];
    SumOverUpdate(Counts(inner), category, |before| + 1);
    var p' := AddRecord(projects, language, category, record);
    assert LanguageTotals(p') == LanguageTotals(projects)[language := SumOver(Counts(inner'))];
    SumOverUpdate(LanguageTotals(projects), language, SumOver(Counts(inner')));
  }

  /** One append adds the record's full name to the recorded names. */
  lemma AddRecordNames(projects: Projects, language: string, category: string, record: Project)
    requires language in projects
    ensures RecordNames(AddRecord(projects, language, category, record)) == RecordNames(projects) + {record.fullName}
  {
    var p': Projects := AddRecord(projects, language, category, record);
    var before := Recorded(projects, language, category);
    assert p'[language][category] == before + [record];
    assert record.fullName in RecordNames(p') by {
      assert p'[language][category][|before|] == record;
    }
    forall n | n in RecordNames(projects) ensures n in RecordNames(p') {
      var l: string, c: string, i: int :| l in projects && c in projects[l] && 0 <= i < |projects[l][c]| && projects[l][c][i].fullName == n;
      if l == language && c == category {
        assert p'[l][c][i] == projects[l][c][i];
      } else {
        assert p'[l][c] == projects[l][c];
      }
    }
    forall n | n in RecordNames(p') ensures n in RecordNames(projects) || n == record.fullName {
      var l: string, c: string, i: int :| l in p' && c in p'[l] && 0 <= i < |p'[l][c]| && p'[l][c][i].fullName == n;
      if l == language && c == category {
        if i < |before| {
          assert p'[l][c][i] == projects[l][c][i];
        }
      } else {
        assert p'[l][c] == projects[l][c];
      }
    }
  }

  /** Appending the record of a name not yet recorded keeps records and
      names in one-to-one correspondence, the name added. */
  lemma AddRecordOneRecordPerName(projects: Projects, names: set<string>, language: string,
                                  category: string, record: Project)
    requires language in projects
    requires OneRecordPerName(projects, names) && record.fullName !in names
    ensures AddRecord(projects, language, category, record).Keys == projects.Keys
    ensures OneRecordPerName(AddRecord(projects, language, category, record), names + {record.fullName})
  {
    AddRecordTotal(projects, language, category, record);
    AddRecordNames(projects, language, category, record);
  }

  // ---------------------------------------------------------------- the class

  /** The source's DataProcessor: category definitions, the quota, and the
      projects collected so far. */
  class DataProcessor {
    const sizeCategories: seq<SizeCategory>
    const projectsPerCategory: int
    var projects: Projects

    /** `__init__`: an empty store for each configured language. */
    constructor (config: Config)
      ensures sizeCategories == config.sizeCategories
      ensures projectsPerCategory == config.projectsPerCategory
      ensures projects == InitialProjects(config.languages)
    {
      sizeCategories := config.sizeCategories;
      projectsPerCategory := config.projectsPerCategory;
      projects := InitialProjects(config.languages);
    }

    /** `get_remaining_counts`: per configured category, how many more
        projects are needed, never negative. */
    method GetRemainingCounts(language: string) returns (remaining: map<string, int>)
      requires language in projects
      ensures remaining == Quota(projects, sizeCategories, projectsPerCategory, language)
    {
      remaining := map[];
      var i := 0;
      while i < |sizeCategories|
        invariant 0 <= i <= |sizeCategories|
        invariant remaining.Keys == set j | 0 <= j < i :: sizeCategories[j].name
        invariant forall c :: c in remaining ==>
          remaining[c] == Max(0, projectsPerCategory - |Recorded(projects, language, c)|)
      {
        var category := sizeCategories[i].name;
        var currentCount := |Recorded(projects, language, category)|;
        remaining := remaining[category := Max(0, projectsPerCategory - currentCount)];
        i := i + 1;
      }
    }
  }
}
