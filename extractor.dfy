/** The candidate filters and the collection loop of the collector
    (github_project_extractor/extractor.py). Every API call the extractor
    makes is replaced by the value `make_request` returned for it, supplied
    up front: for each repository a `RepoResponses`, for each search page
    the list of items. */
module ProjectExtractor {
  import opened Common
  import opened PyText
  import opened DataProcessing

  /** `max_pages` of `collect_projects`. */
  const MaxPages: int := 50
  /** `timeout_seconds` of `_count_lines_of_code`. */
  const LineCountTimeout: int := 30
  /** The branch taken when the repository metadata names none. */
  const FallbackBranch: string := "master"

  // ---------------------------------------------------------------- inputs

  /** The fields of a search result item the extractor reads. `archived`
      may be missing from the item (`repo.get('archived', False)`). */
  datatype Repo = Repo(
    name: string,
    fullName: string,
    htmlUrl: string,
    url: string,
    description: Option<string>,
    stargazersCount: int,
    forksCount: int,
    createdAt: string,
    archived: Option<bool>,
    fork: bool)

  /** One entry of a recursive git tree: its `path` and its `type`. */
  datatype TreeEntry = TreeEntry(path: string, kind: string)

  /** The contents response for one file: absent (no response, or no
      `content` key), not decodable as base64 + UTF-8, or the decoded text. */
  datatype FileData = NoContent | Undecodable | Decoded(text: string)

  /** The repository metadata response; `defaultBranch` is `None` when the
      key is missing. */
  datatype RepoInfo = RepoInfo(defaultBranch: Option<string>)

  /** What the API answered for one repository.
      - `commits`: the committer dates of the `/commits?per_page=1` list,
        `None` for no response;
      - `languages`: the `/languages` mapping in its iteration order;
      - `repoInfo`: the repository metadata;
      - `trees`: branch -> entries of `/git/trees/<branch>?recursive=1`, a
        branch missing when the response is absent or has no `tree` key;
      - `files`: path -> contents response, a path missing meaning no response;
      - `elapsed(i)`: seconds since line counting started, read before
        tree entry `i`;
      - `contributors`: the `/contributors` list. */
  datatype RepoResponses = RepoResponses(
    commits: Option<seq<string>>,
    languages: Option<seq<(string, nat)>>,
    repoInfo: Option<RepoInfo>,
    trees: map<string, seq<TreeEntry>>,
    files: map<string, FileData>,
    elapsed: nat -> int,
    contributors: Option<seq<string>>)

  /** The responses for a repository the oracle says nothing about: every
      request returned `None`. */
  function NoResponses(): RepoResponses
  {
    RepoResponses(None, None, None, map[], map[], _ => 0, None)
  }

  function ResponsesFor(responses: map<string, RepoResponses>, fullName: string): RepoResponses
  {
    if fullName in responses then responses[fullName] else NoResponses()
  }

  // ---------------------------------------------------------------- staleness

  /** `get_last_commit_date`: the date of the first commit listed, if any. */
  function LastCommitDate(commits: Option<seq<string>>): (date: Option<string>)
    ensures date.Some? <==> commits.Some? && commits.value != []
    ensures date.Some? ==> date.value == commits.value[0]
  {
    if commits.Some? && |commits.value| > 0 then Some(commits.value[0]) else None
  }

  /** `int(date.split('-')[0])`, `None` where `int` raises `ValueError`. */
  function CommitYear(date: string): Option<int>
  {
    ParseInt(BeforeFirst(date, '-'))
  }

  /** `_is_last_commit_before`: the commit year is a number below the target year. */
  function IsLastCommitBefore(lastCommitDate: Option<string>, targetYear: int): (r: bool)
    ensures r ==> lastCommitDate.Some? && lastCommitDate.value != []
    ensures r ==> CommitYear(lastCommitDate.value).Some?
    ensures r ==> CommitYear(lastCommitDate.value).value < targetYear
    ensures lastCommitDate.Some? && lastCommitDate.value != [] && CommitYear(lastCommitDate.value).Some? ==>
      (r <==> CommitYear(lastCommitDate.value).value < targetYear)
  {
    match lastCommitDate
    case None => false
    case Some(date) =>
      if date == [] then false
      else
        match CommitYear(date)
        case None => false
        case Some(year) => year < targetYear
  }

  /** For a date that begins with a year and a dash, the check is exactly
      "that year is below the target". */
  lemma CommitYearBefore(year: nat, rest: string, targetYear: int)
    ensures IsLastCommitBefore(Some(IntToString(year) + "-" + rest), targetYear) <==> year < targetYear
  {
    var digits := IntToString(year);
    DecimalIsDigitRun(year);
    assert '-' !in digits by {
      forall i | 0 <= i < |digits| ensures digits[i] != '-' {
        assert IsDigit(digits[i]);
      }
    }
    BeforeFirstOf(digits, '-', rest);
    ParseIntRoundTrip(year);
  }

  /** A date with no digit before its first dash (including one starting
      with a dash) never counts as stale. */
  lemma NoDigitYearNotStale(date: string, targetYear: int)
    requires forall i :: 0 <= i < |BeforeFirst(date, '-')| ==> !IsDigit(BeforeFirst(date, '-')[i])
    ensures !IsLastCommitBefore(Some(date), targetYear)
  {
    ParseIntNeedsDigit(BeforeFirst(date, '-'));
  }

  /** `str(year)` for the years of the examples below. */
  lemma YearDigits()
    ensures IntToString(2018) == "2018" && IntToString(2021) == "2021"
  {
    assert DigitChar(0) == '0' && DigitChar(1) == '1' && DigitChar(2) == '2' && DigitChar(8) == '8';
    assert Decimal(2) == "2";
    assert Decimal(20) == "20";
    assert Decimal(201) == "201";
    assert Decimal(202) == "202";
  }

  /** With target year 2020, a commit in 2018 is stale ... */
  lemma StaleExample()
    ensures IsLastCommitBefore(Some("2018-05-01T00:00:00Z"), 2020)
  {
    var date, rest := "2018-05-01T00:00:00Z", "05-01T00:00:00Z";
    YearDigits();
    assert date == IntToString(2018) + "-" + rest;
    CommitYearBefore(2018, rest, 2020);
  }

  /** ... and one in 2021 is not. */
  lemma RecentExample()
    ensures !IsLastCommitBefore(Some("2021-01-01T00:00:00Z"), 2020)
  {
    var date, rest := "2021-01-01T00:00:00Z", "01-01T00:00:00Z";
    YearDigits();
    assert date == IntToString(2021) + "-" + rest;
    CommitYearBefore(2021, rest, 2020);
  }

  // ---------------------------------------------------------------- language dominance

  /** A value or the `ZeroDivisionError` the source lets escape. */
  datatype Checked<T> = Ok(value: T) | ZeroDivisionError

  /** `sum(languages.values())`. */
  function TotalBytes(languages: seq<(string, nat)>): nat
  {
    if languages == [] then 0 else languages[0].1 + TotalBytes(languages[1..])
  }

  predicate SameLanguage(a: string, b: string)
  {
    Lower(a) == Lower(b)
  }

  predicate FirstLanguageAt(languages: seq<(string, nat)>, target: string, i: int)
  {
    0 <= i < |languages| && SameLanguage(languages[i].0, target)
    && forall j :: 0 <= j < i ==> !SameLanguage(languages[j].0, target)
  }

  /** The byte count of the first language equal to `target` ignoring case,
      0 when none is. */
  function TargetBytes(languages: seq<(string, nat)>, target: string): (r: nat)
    ensures (exists i :: FirstLanguageAt(languages, target, i) && r == languages[i].1)
         || (r == 0 && forall i :: 0 <= i < |languages| ==> !SameLanguage(languages[i].0, target))
  {
    if languages == [] then 0
    else if SameLanguage(languages[0].0, target) then
      assert FirstLanguageAt(languages, target, 0);
      languages[0].1
    else
      var r := TargetBytes(languages[1..], target);
      assert forall i :: 1 <= i < |languages| ==> languages[i] == languages[1..][i - 1];
      assert (exists i :: FirstLanguageAt(languages[1..], target, i) && r == languages[1..][i].1)
             ==> exists i :: FirstLanguageAt(languages, target, i) && r == languages[i].1 by {
        if exists i :: FirstLanguageAt(languages[1..], target, i) && r == languages[1..][i].1 {
          var i :| FirstLanguageAt(languages[1..], target, i) && r == languages[1..][i].1;
          assert FirstLanguageAt(languages, target, i + 1);
        }
      }
      r
  }

  /** What `_check_language_dominance` returns, with `target / total > 0.7`
      as `10 * target > 7 * total`. */
  function Dominance(languages: Option<seq<(string, nat)>>, target: string): Checked<bool>
  {
    if languages.None? || languages.value == [] then Ok(false)
    else
      var total := TotalBytes(languages.value);
      if total == 0 then ZeroDivisionError
      else Ok(10 * TargetBytes(languages.value, target) > 7 * total)
  }

  /** The target's share is a share: it never exceeds the total. */
  lemma {:induction false} TargetWithinTotal(languages: seq<(string, nat)>, target: string)
    ensures TargetBytes(languages, target) <= TotalBytes(languages)
  {
    if languages != [] && !SameLanguage(languages[0].0, target) {
      TargetWithinTotal(languages[1..], target);
    }
  }

  /** A dominant target is listed, first among the entries equal to it
      ignoring case, with more than 70% of all bytes; conversely such an
      entry makes the target dominant. */
  lemma DominantIsListed(languages: seq<(string, nat)>, target: string)
    ensures Dominance(Some(languages), target) == Ok(true) <==>
      exists i :: FirstLanguageAt(languages, target, i) && 10 * languages[i].1 > 7 * TotalBytes(languages)
  {
    if exists i :: FirstLanguageAt(languages, target, i) && 10 * languages[i].1 > 7 * TotalBytes(languages) {
      var i :| FirstLanguageAt(languages, target, i) && 10 * languages[i].1 > 7 * TotalBytes(languages);
      var j :| FirstLanguageAt(languages, target, j) && TargetBytes(languages, target) == languages[j].1;
      assert i == j;
    }
  }

  /** "Java" with 800 of 1000 bytes dominates for target "java"; "Python"
      with 600 of 1000 does not; a non-empty map with zero bytes raises. */
  lemma DominanceExamples()
    ensures Dominance(Some([("Java", 800), ("XML", 200)]), "java") == Ok(true)
    ensures Dominance(Some([("Python", 600), ("C", 400)]), "python") == Ok(false)
    ensures Dominance(Some([("Java", 0)]), "java") == ZeroDivisionError
    ensures Dominance(None, "java") == Ok(false) && Dominance(Some([]), "java") == Ok(false)
  {
    assert Lower("Java") == "java";
    assert Lower("Python") == "python";
    var l1: seq<(string, nat)> := [("Java", 800), ("XML", 200)];
    assert TotalBytes(l1) == 1000 by { assert l1[1..][1..] == []; }
    var l2: seq<(string, nat)> := [("Python", 600), ("C", 400)];
    assert TotalBytes(l2) == 1000 by { assert l2[1..][1..] == []; }
    var l3: seq<(string, nat)> := [("Java", 0)];
    assert TotalBytes(l3) == 0 by { assert l3[1..] == []; }
  }

  /** `_check_language_dominance` on the `/languages` response. */
  method CheckLanguageDominance(languages: Option<seq<(string, nat)>>, targetLanguage: string)
    returns (r: Checked<bool>)
    ensures r == Dominance(languages, targetLanguage)
  {
    if languages.None? || |languages.value| == 0 {
      return Ok(false);
    }
    var items := languages.value;
    var totalBytes := TotalBytes(items);
    var targetBytes := 0;
    var target := Lower(targetLanguage);
    var i := 0;
    while i < |items|
      invariant 0 <= i <= |items|
      invariant targetBytes == 0
      invariant TargetBytes(items[i..], targetLanguage) == TargetBytes(items, targetLanguage)
    {
      if Lower(items[i].0) == target {
        targetBytes := items[i].1;
        break;
      }
      assert items[i..][1..] == items[i + 1..];
      i := i + 1;
    }
    if totalBytes == 0 {
      return ZeroDivisionError;
    }
    return Ok(10 * targetBytes > 7 * totalBytes);
  }

  // ---------------------------------------------------------------- lines of code

  /** `extensions.get(language.lower(), [])`. */
  function Extensions(language: string): seq<string>
  {
    var l := Lower(language);
    if l == "java" then [".java"]
    else if l == "python" then [".py", ".pyx", ".pyw"]
    else []
  }

  /** A blob whose path ends with one of the extensions. */
  predicate IsSourceFile(entry: TreeEntry, extensions: seq<string>)
  {
    entry.kind == "blob" && exists e :: e in extensions && EndsWith(entry.path, e)
  }

  /** The source files among `entries`, in tree order. */
  function SourceFiles(entries: seq<TreeEntry>, extensions: seq<string>): seq<TreeEntry>
  {
    if entries == [] then []
    else
      var last := entries[|entries| - 1];
      SourceFiles(entries[..|entries| - 1], extensions) + (if IsSourceFile(last, extensions) then [last] else [])
  }

  /** `_count_file_lines` on the contents response. */
  function CountFileLines(file: FileData): (n: nat)
    ensures !file.Decoded? ==> n == 0
    ensures file.Decoded? ==> n == |SplitLines(file.text)|
    ensures file.Decoded? && file.text != [] ==> n >= 1
  {
    match file
    case NoContent => 0
    case Undecodable => 0
    case Decoded(text) => |SplitLines(text)|
  }

  function FileFor(files: map<string, FileData>, path: string): FileData
  {
    if path in files then files[path] else NoContent
  }

  /** The line counts of the files at `entries`, summed. */
  function SumFileLines(entries: seq<TreeEntry>, files: map<string, FileData>): nat
  {
    if entries == [] then 0
    else SumFileLines(entries[..|entries| - 1], files) + CountFileLines(FileFor(files, entries[|entries| - 1].path))
  }

  /** `_get_default_branch`. */
  function DefaultBranch(info: Option<RepoInfo>): (branch: string)
    ensures info.Some? && info.value.defaultBranch.Some? ==> branch == info.value.defaultBranch.value
    ensures info.None? || info.value.defaultBranch.None? ==> branch == FallbackBranch
  {
    if info.Some? && info.value.defaultBranch.Some? then info.value.defaultBranch.value else FallbackBranch
  }

  /** Whether the clock passed the timeout before one of the first `n` entries. */
  predicate TimedOut(n: nat, elapsed: nat -> int)
  {
    exists i: nat :: i < n && elapsed(i) > LineCountTimeout
  }

  /** What `_count_lines_of_code` returns. */
  function LinesOfCode(language: string, r: RepoResponses): nat
  {
    var branch := DefaultBranch(r.repoInfo);
    if branch !in r.trees then 0
    else
      var tree := r.trees[branch];
      if TimedOut(|tree|, r.elapsed) then 0
      else SumFileLines(SourceFiles(tree, Extensions(language)), r.files)
  }

  /** A file of newline-terminated lines counts as that many lines. */
  lemma CountFileLinesOfLines(lines: seq<string>)
    requires forall j :: 0 <= j < |lines| ==> NoLineBreak(lines[j])
    ensures CountFileLines(Decoded(JoinLines(lines))) == |lines|
  {
    SplitJoin(lines);
  }

  /** Only entries of the tree that are source files are counted. */
  lemma {:induction false} SourceFilesAreSources(entries: seq<TreeEntry>, extensions: seq<string>)
    ensures forall e :: e in SourceFiles(entries, extensions) ==> e in entries && IsSourceFile(e, extensions)
  {
    if entries != [] {
      SourceFilesAreSources(entries[..|entries| - 1], extensions);
    }
  }

  /** Every source file of the tree is counted. */
  lemma {:induction false} SourcesAreSourceFiles(entries: seq<TreeEntry>, extensions: seq<string>)
    ensures forall e :: e in entries && IsSourceFile(e, extensions) ==> e in SourceFiles(entries, extensions)
  {
    if entries != [] {
      SourcesAreSourceFiles(entries[..|entries| - 1], extensions);
      assert entries == entries[..|entries| - 1] + [entries[|entries| - 1]];
    }
  }

  /** A language with no known extensions has no source files. */
  lemma {:induction false} NoExtensionsNoSources(entries: seq<TreeEntry>)
    ensures SourceFiles(entries, []) == []
  {
    if entries != [] {
      NoExtensionsNoSources(entries[..|entries| - 1]);
    }
  }

  /** An unknown language, a missing tree or a timeout gives 0 lines. */
  lemma LinesOfCodeZero(language: string, r: RepoResponses)
    requires Extensions(language) == [] || DefaultBranch(r.repoInfo) !in r.trees
          || TimedOut(|r.trees[DefaultBranch(r.repoInfo)]|, r.elapsed)
    ensures LinesOfCode(language, r) == 0
  {
    var branch := DefaultBranch(r.repoInfo);
    if branch in r.trees && Extensions(language) == [] {
      NoExtensionsNoSources(r.trees[branch]);
    }
  }

  /** Only the tree of the default branch is read: trees of other branches,
      present or not, do not change the count. */
  lemma OnlyDefaultBranchCounts(language: string, r: RepoResponses, trees: map<string, seq<TreeEntry>>)
    requires DefaultBranch(r.repoInfo) in trees <==> DefaultBranch(r.repoInfo) in r.trees
    requires DefaultBranch(r.repoInfo) in trees ==> trees[DefaultBranch(r.repoInfo)] == r.trees[DefaultBranch(r.repoInfo)]
    ensures LinesOfCode(language, r.(trees := trees)) == LinesOfCode(language, r)
  {
  }

  /** The counted lines of the first `n` entries of `tree`. */
  lemma SumSourcesStep(tree: seq<TreeEntry>, extensions: seq<string>, files: map<string, FileData>, i: nat)
    requires i < |tree|
    ensures SumFileLines(SourceFiles(tree[..i + 1], extensions), files) ==
      SumFileLines(SourceFiles(tree[..i], extensions), files)
      + (if IsSourceFile(tree[i], extensions) then CountFileLines(FileFor(files, tree[i].path)) else 0)
  {
    var prefix := tree[..i + 1];
    assert prefix[..i] == tree[..i];
    assert prefix[i] == tree[i];
    if IsSourceFile(tree[i], extensions) {
      var s := SourceFiles(tree[..i], extensions) + [tree[i]];
      assert s[..|s| - 1] == SourceFiles(tree[..i], extensions);
    } else {
      assert SourceFiles(prefix, extensions) == SourceFiles(tree[..i], extensions) + [];
      assert SourceFiles(tree[..i], extensions) + [] == SourceFiles(tree[..i], extensions);
    }
  }

  /** `_count_lines_of_code`: the loop over the tree entries with its timeout check. */
  method CountLinesOfCode(language: string, r: RepoResponses) returns (totalLines: nat)
    ensures totalLines == LinesOfCode(language, r)
  {
    var defaultBranch := DefaultBranch(r.repoInfo);
    if defaultBranch !in r.trees {
      return 0;
    }
    var tree := r.trees[defaultBranch];
    var languageExtensions := Extensions(language);
    totalLines := 0;
    var i := 0;
    while i < |tree|
      invariant 0 <= i <= |tree|
      invariant !TimedOut(i, r.elapsed)
      invariant totalLines == SumFileLines(SourceFiles(tree[..i], languageExtensions), r.files)
    {
      if r.elapsed(i) > LineCountTimeout {
        assert TimedOut(|tree|, r.elapsed) by {
          assert i < |tree| && r.elapsed(i) > LineCountTimeout;
        }
        return 0;
      }
      SumSourcesStep(tree, languageExtensions, r.files, i);
      if IsSourceFile(tree[i], languageExtensions) {
        var fileLines := CountFileLines(FileFor(r.files, tree[i].path));
        totalLines := totalLines + fileLines;
      }
      i := i + 1;
    }
    assert tree[..i] == tree;
  }

  // ---------------------------------------------------------------- the accept/reject chain

  /** Why `_process_repo` stopped, or what it accepted. */
  datatype Verdict =
    | Duplicate
    | NotStale
    | NotDominant
    | Crashed
    | Unclassified(lines: nat)
    | QuotaFilled(category: string, lines: nat)
    | Accept(category: string, lines: nat)

  /** The outcome of `_process_repo` for `repo` given the repositories
      accepted so far and the quotas still open. */
  function Screen(processed: set<string>, config: Config, remaining: map<string, int>,
                  repo: Repo, language: string, r: RepoResponses): Verdict
    requires CategoryNames(config.sizeCategories) <= remaining.Keys
  {
    if repo.fullName in processed then Duplicate
    else if !IsLastCommitBefore(LastCommitDate(r.commits), config.targetYear) then NotStale
    else
      match Dominance(r.languages, language)
      case ZeroDivisionError => Crashed
      case Ok(dominant) =>
        if !dominant then NotDominant
        else
          var lines := LinesOfCode(language, r);
          match GetSizeCategory(config.sizeCategories, lines)
          case None => Unclassified(lines)
          case Some(c) => if remaining[c] <= 0 then QuotaFilled(c, lines) else Accept(c, lines)
  }

  /** The repository is new, its last commit is before the target year, its
      language dominates, it has `n` lines of code, the first size category
      holding `n` is `c`, and `c` still has room. */
  ghost predicate Qualifies(processed: set<string>, config: Config, remaining: map<string, int>,
                      repo: Repo, language: string, r: RepoResponses, c: string, n: nat)
    requires CategoryNames(config.sizeCategories) <= remaining.Keys
  {
    && repo.fullName !in processed
    && IsLastCommitBefore(LastCommitDate(r.commits), config.targetYear)
    && Dominance(r.languages, language) == Ok(true)
    && n == LinesOfCode(language, r)
    && (exists i :: FirstMatchAt(config.sizeCategories, n, i) && config.sizeCategories[i].name == c)
    && c in remaining && remaining[c] > 0
  }

  /** A repository is accepted into `c` with `n` lines exactly when it
      qualifies for it. */
  lemma ScreenAccepts(processed: set<string>, config: Config, remaining: map<string, int>,
                      repo: Repo, language: string, r: RepoResponses, c: string, n: nat)
    requires CategoryNames(config.sizeCategories) <= remaining.Keys
    ensures Screen(processed, config, remaining, repo, language, r) == Accept(c, n) <==>
      Qualifies(processed, config, remaining, repo, language, r, c, n)
  {
    if Qualifies(processed, config, remaining, repo, language, r, c, n) {
      var i :| FirstMatchAt(config.sizeCategories, n, i) && config.sizeCategories[i].name == c;
      ScreenAcceptsAt(processed, config, remaining, repo, language, r, c, n, i);
    }
    if Screen(processed, config, remaining, repo, language, r) == Accept(c, n) {
      ScreenAcceptsOnly(processed, config, remaining, repo, language, r, c, n);
    }
  }

  /** A repository passing every filter, `i` being the first category that
      holds its line count, is accepted into that category. */
  lemma ScreenAcceptsAt(processed: set<string>, config: Config, remaining: map<string, int>,
                        repo: Repo, language: string, r: RepoResponses, c: string, n: nat, i: int)
    requires CategoryNames(config.sizeCategories) <= remaining.Keys
    requires repo.fullName !in processed
    requires IsLastCommitBefore(LastCommitDate(r.commits), config.targetYear)
    requires Dominance(r.languages, language) == Ok(true)
    requires n == LinesOfCode(language, r)
    requires FirstMatchAt(config.sizeCategories, n, i) && config.sizeCategories[i].name == c
    requires remaining[c] > 0
    ensures Screen(processed, config, remaining, repo, language, r) == Accept(c, n)
  {
    GetSizeCategoryFirstMatch(config.sizeCategories, n, i);
  }

  /** An accepted repository passed every filter. */
  lemma ScreenAcceptsOnly(processed: set<string>, config: Config, remaining: map<string, int>,
                          repo: Repo, language: string, r: RepoResponses, c: string, n: nat)
    requires CategoryNames(config.sizeCategories) <= remaining.Keys
    requires Screen(processed, config, remaining, repo, language, r) == Accept(c, n)
    ensures repo.fullName !in processed
    ensures IsLastCommitBefore(LastCommitDate(r.commits), config.targetYear)
    ensures Dominance(r.languages, language) == Ok(true)
    ensures n == LinesOfCode(language, r)
    ensures exists i :: FirstMatchAt(config.sizeCategories, n, i) && config.sizeCategories[i].name == c
    ensures c in remaining && remaining[c] > 0
  {
  }

  /** An accepted repository lies in its category's range. */
  lemma AcceptedInRange(processed: set<string>, config: Config, remaining: map<string, int>,
                        repo: Repo, language: string, r: RepoResponses)
    requires CategoryNames(config.sizeCategories) <= remaining.Keys
    requires Screen(processed, config, remaining, repo, language, r).Accept?
    ensures exists i ::
      && 0 <= i < |config.sizeCategories|
      && config.sizeCategories[i].name == Screen(processed, config, remaining, repo, language, r).category
      && InRange(config.sizeCategories[i], Screen(processed, config, remaining, repo, language, r).lines)
  {
    var v := Screen(processed, config, remaining, repo, language, r);
    var i :| FirstMatchAt(config.sizeCategories, v.lines, i) && config.sizeCategories[i].name == v.category;
  }

  /** An accepted repository is new and its category is a configured one. */
  lemma AcceptedIsNew(processed: set<string>, config: Config, remaining: map<string, int>,
                      repo: Repo, language: string, r: RepoResponses)
    requires CategoryNames(config.sizeCategories) <= remaining.Keys
    requires Screen(processed, config, remaining, repo, language, r).Accept?
    ensures repo.fullName !in processed
    ensures Screen(processed, config, remaining, repo, language, r).category in CategoryNames(config.sizeCategories)
    ensures remaining[Screen(processed, config, remaining, repo, language, r).category] > 0
  {
  }

  /** The record `_add_project` builds. Its last commit date comes from the
      same `/commits` response as the staleness check. */
  function Record(repo: Repo, language: string, category: string, lines: nat, r: RepoResponses): (p: Project)
    ensures p.fullName == repo.fullName && p.language == language
    ensures p.sizeCategory == category && p.linesOfCode == lines
    ensures p.isArchived <==> repo.archived == Some(true)
    ensures p.contributorsCount == 0 <==> r.contributors.None? || r.contributors.value == []
    ensures LastCommitDate(r.commits).Some? ==> p.lastCommitDate == LastCommitDate(r.commits).value
  {
    Project(
      repo.name, repo.fullName, repo.htmlUrl, repo.url, repo.description,
      repo.stargazersCount, repo.forksCount, language, category, lines,
      if r.contributors.Some? then |r.contributors.value| else 0,
      repo.createdAt,
      match LastCommitDate(r.commits) case Some(d) => d case None => "",
      match repo.archived case Some(a) => a case None => false,
      repo.fork)
  }

  predicate AllZero(remaining: map<string, int>)
  {
    forall c :: c in remaining ==> remaining[c] == 0
  }

  predicate AnyPositive(remaining: map<string, int>)
  {
    exists c :: c in remaining && remaining[c] > 0
  }

  // ---------------------------------------------------------------- one language's run, on values

  /** What one run of `collect_projects` changes: the store of projects, the
      names accepted so far and the quota map it decrements. */
  datatype State = State(projects: Projects, processed: set<string>, remaining: map<string, int>)

  /** The store has an entry for `language` and the quota map one for every
      configured category, so that screening and adding are defined. */
  predicate Fits(config: Config, language: string, st: State)
  {
    language in st.projects && CategoryNames(config.sizeCategories) <= st.remaining.Keys
  }

  /** What holds throughout a run for `language`: the quota map is the one
      `get_remaining_counts` would recompute, and the records correspond one
      to one with the accepted names. */
  ghost predicate RunInvariant(config: Config, language: string, st: State)
  {
    && language in st.projects
    && st.remaining == Quota(st.projects, config.sizeCategories, config.projectsPerCategory, language)
    && OneRecordPerName(st.projects, st.processed)
  }

  /** From `projects` and `processed` to `st'` only `language`'s records
      changed and no accepted name was forgotten. */
  predicate Frame(language: string, projects: Projects, processed: set<string>, st': State)
  {
    && language in st'.projects
    && st'.projects == projects[language := st'.projects[language]]
    && processed <= st'.processed
  }

  /** `_add_project` on values: the record appended, the name remembered,
      one slot of the category taken. */
  function Add(st: State, language: string, category: string, record: Project): (st': State)
    requires language in st.projects && category in st.remaining
    ensures st'.projects.Keys == st.projects.Keys && st'.remaining.Keys == st.remaining.Keys
    ensures Recorded(st'.projects, language, category) == Recorded(st.projects, language, category) + [record]
    ensures st'.remaining[category] == st.remaining[category] - 1
    ensures record.fullName in st'.processed
  {
    State(AddRecord(st.projects, language, category, record),
          st.processed + {record.fullName},
          st.remaining[category := st.remaining[category] - 1])
  }

  /** `_process_repo` on values: the repository is added exactly when it is
      accepted; every other outcome leaves the state as it was. */
  function Step(config: Config, st: State, language: string, repo: Repo, r: RepoResponses): (st': State)
    requires Fits(config, language, st)
    ensures Fits(config, language, st')
    ensures st'.projects.Keys == st.projects.Keys
  {
    var v := Screen(st.processed, config, st.remaining, repo, language, r);
    if v.Accept? then
      AcceptedIsNew(st.processed, config, st.remaining, repo, language, r);
      Add(st, language, v.category, Record(repo, language, v.category, v.lines, r))
    else st
  }

  /** An accepted repository is appended to its category, its name
      remembered and its category's quota decremented. */
  lemma StepAccepted(config: Config, st: State, language: string, repo: Repo, r: RepoResponses)
    requires RunInvariant(config, language, st)
    requires Screen(st.processed, config, st.remaining, repo, language, r).Accept?
    ensures var v := Screen(st.processed, config, st.remaining, repo, language, r);
      Step(config, st, language, repo, r) == Add(st, language, v.category, Record(repo, language, v.category, v.lines, r))
    ensures RunInvariant(config, language, Step(config, st, language, repo, r))
    ensures Frame(language, st.projects, st.processed, Step(config, st, language, repo, r))
    ensures Step(config, st, language, repo, r).processed == st.processed + {repo.fullName}
  {
    var v := Screen(st.processed, config, st.remaining, repo, language, r);
    AcceptedIsNew(st.processed, config, st.remaining, repo, language, r);
    var record := Record(repo, language, v.category, v.lines, r);
    assert Step(config, st, language, repo, r) == Add(st, language, v.category, record);
    AddRecordQuota(st.projects, config.sizeCategories, config.projectsPerCategory, language, v.category, record);
    AddRecordOneRecordPerName(st.projects, st.processed, language, v.category, record);
  }

  /** Any other verdict leaves the state as it was. */
  lemma StepRejected(config: Config, st: State, language: string, repo: Repo, r: RepoResponses)
    requires Fits(config, language, st)
    requires !Screen(st.processed, config, st.remaining, repo, language, r).Accept?
    ensures Step(config, st, language, repo, r) == st
  {
  }

  /** Either way the run invariant stays in place, only `language`'s
      records change and at most the repository's own name is added. */
  lemma StepKeeps(config: Config, st: State, language: string, repo: Repo, r: RepoResponses)
    requires RunInvariant(config, language, st)
    ensures RunInvariant(config, language, Step(config, st, language, repo, r))
    ensures Frame(language, st.projects, st.processed, Step(config, st, language, repo, r))
    ensures Step(config, st, language, repo, r).processed <= st.processed + {repo.fullName}
  {
    if Screen(st.processed, config, st.remaining, repo, language, r).Accept? {
      StepAccepted(config, st, language, repo, r);
    } else {
      StepRejected(config, st, language, repo, r);
    }
  }

  /** The names of the repositories of a search page. */
  function ItemNames(items: seq<Repo>): set<string>
  {
    set j | 0 <= j < |items| :: items[j].fullName
  }

  /** The first item's name and the rest's. */
  lemma ItemNamesCons(items: seq<Repo>)
    requires items != []
    ensures ItemNames(items) == {items[0].fullName} + ItemNames(items[1..])
  {
    forall n | n in ItemNames(items) ensures n in {items[0].fullName} + ItemNames(items[1..]) {
      var j :| 0 <= j < |items| && items[j].fullName == n;
      if j > 0 {
        assert items[1..][j - 1] == items[j];
      }
    }
    forall n | n in ItemNames(items[1..]) ensures n in ItemNames(items) {
      var j :| 0 <= j < |items[1..]| && items[1..][j].fullName == n;
      assert items[j + 1] == items[1..][j];
    }
  }

  /** Two steps that each change only `language`'s records together change
      only those. */
  lemma FrameTrans(language: string, projects: Projects, processed: set<string>, st1: State, st2: State)
    requires Frame(language, projects, processed, st1)
    requires Frame(language, st1.projects, st1.processed, st2)
    ensures Frame(language, projects, processed, st2)
  {
    assert st2.projects == st1.projects[language := st2.projects[language]];
    forall l | l in st2.projects ensures st2.projects[l] == projects[language := st2.projects[language]][l] {
      if l != language {
        assert st2.projects[l] == st1.projects[l];
      }
    }
  }

  /** The `for repo in search_results['items']` loop: each item screened in
      order until a `ZeroDivisionError` escapes. The flag says whether one did. */
  function ProcessItems(config: Config, st: State, language: string, items: seq<Repo>,
                        responses: map<string, RepoResponses>): (out: (State, bool))
    requires Fits(config, language, st)
    ensures Fits(config, language, out.0)
    ensures out.0.projects.Keys == st.projects.Keys
    decreases |items|
  {
    if items == [] then (st, false)
    else
      var r := ResponsesFor(responses, items[0].fullName);
      if Screen(st.processed, config, st.remaining, items[0], language, r) == Crashed then (st, true)
      else ProcessItems(config, Step(config, st, language, items[0], r), language, items[1..], responses)
  }

  /** A page keeps the run invariant, changes only its language's records,
      and accepts only repositories that are on it. */
  lemma {:induction false} ProcessItemsKeeps(config: Config, st: State, language: string, items: seq<Repo>,
                                             responses: map<string, RepoResponses>)
    requires RunInvariant(config, language, st)
    ensures RunInvariant(config, language, ProcessItems(config, st, language, items, responses).0)
    ensures Frame(language, st.projects, st.processed, ProcessItems(config, st, language, items, responses).0)
    ensures ProcessItems(config, st, language, items, responses).0.processed <= st.processed + ItemNames(items)
    decreases |items|, 1
  {
    if items != [] && Screen(st.processed, config, st.remaining, items[0], language,
                             ResponsesFor(responses, items[0].fullName)) != Crashed {
      ProcessItemsNext(config, st, language, items, responses);
    } else {
      ProcessItemsStops(config, st, language, items, responses);
    }
  }

  /** An empty page, or one whose first item crashes, changes nothing. */
  lemma ProcessItemsStops(config: Config, st: State, language: string, items: seq<Repo>,
                          responses: map<string, RepoResponses>)
    requires Fits(config, language, st)
    requires items == [] || Screen(st.processed, config, st.remaining, items[0], language,
                                   ResponsesFor(responses, items[0].fullName)) == Crashed
    ensures ProcessItems(config, st, language, items, responses) == (st, items != [])
  {
  }

  /** The same, for a page whose first item is screened without a crash. */
  lemma {:induction false} ProcessItemsNext(config: Config, st: State, language: string, items: seq<Repo>,
                                            responses: map<string, RepoResponses>)
    requires RunInvariant(config, language, st)
    requires items != []
    requires Screen(st.processed, config, st.remaining, items[0], language,
                    ResponsesFor(responses, items[0].fullName)) != Crashed
    ensures RunInvariant(config, language, ProcessItems(config, st, language, items, responses).0)
    ensures Frame(language, st.projects, st.processed, ProcessItems(config, st, language, items, responses).0)
    ensures ProcessItems(config, st, language, items, responses).0.processed <= st.processed + ItemNames(items)
    decreases |items|, 0
  {
    var r := ResponsesFor(responses, items[0].fullName);
    var st1 := Step(config, st, language, items[0], r);
    StepKeeps(config, st, language, items[0], r);
    ProcessItemsKeeps(config, st1, language, items[1..], responses);
    FrameTrans(language, st.projects, st.processed, st1, ProcessItems(config, st1, language, items[1..], responses).0);
    ItemNamesCons(items);
  }

  /** How a run ends: the state, the pages requested in order, and whether a
      `ZeroDivisionError` ended it. */
  datatype Outcome = Outcome(state: State, requested: seq<int>, crashed: bool)

  /** The `while any(count > 0 ...) and page <= 50` loop, from `page` on. */
  function CollectPages(config: Config, st: State, language: string, pages: map<int, seq<Repo>>,
                        responses: map<string, RepoResponses>, page: int): (o: Outcome)
    requires Fits(config, language, st)
    ensures Fits(config, language, o.state)
    ensures o.state.projects.Keys == st.projects.Keys
    decreases MaxPages + 1 - page, 1
  {
    if !(AnyPositive(st.remaining) && page <= MaxPages) then Outcome(st, [], false)
    else RequestPage(config, st, language, pages, responses, page)
  }

  /** One turn of that loop: page `page` is requested and its items are
      screened. A page missing from `pages` (no response, or no `items`)
      ends the loop. */
  function RequestPage(config: Config, st: State, language: string, pages: map<int, seq<Repo>>,
                       responses: map<string, RepoResponses>, page: int): (o: Outcome)
    requires Fits(config, language, st) && page <= MaxPages
    ensures Fits(config, language, o.state)
    ensures o.state.projects.Keys == st.projects.Keys
    decreases MaxPages + 1 - page, 0
  {
    if page !in pages then Outcome(st, [page], false)
    else
      var (st', crashed) := ProcessItems(config, st, language, pages[page], responses);
      if crashed then Outcome(st', [page], true)
      else Join([page], CollectPages(config, st', language, pages, responses, page + 1))
  }

  /** `o` with `prefix` requested before it. */
  function Join(prefix: seq<int>, o: Outcome): Outcome
  {
    Outcome(o.state, prefix + o.requested, o.crashed)
  }

  lemma JoinJoin(a: seq<int>, b: seq<int>, o: Outcome)
    ensures Join(a, Join(b, o)) == Join(a + b, o)
  {
    assert a + (b + o.requested) == (a + b) + o.requested;
  }

  /** The page loop stops when no quota is open or the page limit is passed. */
  lemma CollectPagesDone(config: Config, st: State, language: string, pages: map<int, seq<Repo>>,
                         responses: map<string, RepoResponses>, page: int)
    requires Fits(config, language, st)
    requires !(AnyPositive(st.remaining) && page <= MaxPages)
    ensures CollectPages(config, st, language, pages, responses, page) == Outcome(st, [], false)
  {
  }

  /** One turn of the page loop, case by case. */
  lemma CollectPagesStep(config: Config, st: State, language: string, pages: map<int, seq<Repo>>,
                         responses: map<string, RepoResponses>, page: int)
    requires Fits(config, language, st)
    ensures AnyPositive(st.remaining) && page <= MaxPages && page !in pages ==>
      CollectPages(config, st, language, pages, responses, page) == Outcome(st, [page], false)
    ensures AnyPositive(st.remaining) && page <= MaxPages && page in pages ==>
      var (st', crashed) := ProcessItems(config, st, language, pages[page], responses);
      CollectPages(config, st, language, pages, responses, page) ==
        if crashed then Outcome(st', [page], true)
        else Join([page], CollectPages(config, st', language, pages, responses, page + 1))
  {
  }

  /** The page numbers `first`, `first + 1`, ..., `first + n - 1`. */
  function Consecutive(first: int, n: nat): seq<int>
    decreases n
  {
    if n == 0 then [] else [first] + Consecutive(first + 1, n - 1)
  }

  lemma {:induction false} ConsecutiveIndex(first: int, n: nat)
    ensures |Consecutive(first, n)| == n
    ensures forall i :: 0 <= i < n ==> Consecutive(first, n)[i] == first + i
    decreases n
  {
    if n > 0 {
      ConsecutiveIndex(first + 1, n - 1);
    }
  }

  /** How the page loop started at `page` ends: the pages are requested
      one after the other from `page`, at most up to page 50; every page but
      the last was answered; the loop ends on a crash, on a missing page,
      after page 50, or when no quota is open. */
  predicate PagesShape(pages: map<int, seq<Repo>>, page: int, o: Outcome)
  {
    var n := |o.requested|;
    && o.requested == Consecutive(page, n)
    && n <= MaxPages + 1 - page
    && (forall p :: page <= p < page + n - 1 ==> p in pages)
    && (o.crashed ==> n > 0 && page + n - 1 in pages)
    && (!o.crashed ==> n == MaxPages + 1 - page || (n > 0 && page + n - 1 !in pages) || !AnyPositive(o.state.remaining))
  }

  lemma {:induction false} CollectPagesShape(config: Config, st: State, language: string, pages: map<int, seq<Repo>>,
                                             responses: map<string, RepoResponses>, page: int)
    requires Fits(config, language, st)
    requires 1 <= page <= MaxPages + 1
    ensures PagesShape(pages, page, CollectPages(config, st, language, pages, responses, page))
    decreases MaxPages + 1 - page, 1
  {
    if AnyPositive(st.remaining) && page <= MaxPages && page in pages {
      CollectPagesShapeNext(config, st, language, pages, responses, page);
    }
  }

  /** The same, when the page is there and gets screened. */
  lemma {:induction false} CollectPagesShapeNext(config: Config, st: State, language: string, pages: map<int, seq<Repo>>,
                                                 responses: map<string, RepoResponses>, page: int)
    requires Fits(config, language, st)
    requires 1 <= page <= MaxPages && AnyPositive(st.remaining) && page in pages
    ensures PagesShape(pages, page, CollectPages(config, st, language, pages, responses, page))
    decreases MaxPages + 1 - page, 0
  {
    var (st', crashed) := ProcessItems(config, st, language, pages[page], responses);
    if !crashed {
      CollectPagesShape(config, st', language, pages, responses, page + 1);
      PagesShapeJoin(pages, page, CollectPages(config, st', language, pages, responses, page + 1));
    }
  }

  /** A requested and answered page in front of a run from the next page. */
  lemma PagesShapeJoin(pages: map<int, seq<Repo>>, page: int, o: Outcome)
    requires page <= MaxPages && page in pages
    requires PagesShape(pages, page + 1, o)
    ensures PagesShape(pages, page, Join([page], o))
  {
  }

  /** The page loop keeps the run invariant and changes only `language`'s
      records. */
  lemma {:induction false} CollectPagesKeeps(config: Config, st: State, language: string, pages: map<int, seq<Repo>>,
                                             responses: map<string, RepoResponses>, page: int)
    requires RunInvariant(config, language, st)
    ensures RunInvariant(config, language, CollectPages(config, st, language, pages, responses, page).state)
    ensures Frame(language, st.projects, st.processed, CollectPages(config, st, language, pages, responses, page).state)
    decreases MaxPages + 1 - page, 1
  {
    if AnyPositive(st.remaining) && page <= MaxPages && page in pages {
      CollectPagesKeepsNext(config, st, language, pages, responses, page);
    } else {
      assert CollectPages(config, st, language, pages, responses, page).state == st;
    }
  }

  /** The same, when the page is there and gets screened. */
  lemma {:induction false} CollectPagesKeepsNext(config: Config, st: State, language: string, pages: map<int, seq<Repo>>,
                                                 responses: map<string, RepoResponses>, page: int)
    requires RunInvariant(config, language, st)
    requires AnyPositive(st.remaining) && page <= MaxPages && page in pages
    ensures RunInvariant(config, language, CollectPages(config, st, language, pages, responses, page).state)
    ensures Frame(language, st.projects, st.processed, CollectPages(config, st, language, pages, responses, page).state)
    decreases MaxPages + 1 - page, 0
  {
    ProcessItemsKeeps(config, st, language, pages[page], responses);
    var st' := ProcessItems(config, st, language, pages[page], responses).0;
    if ProcessItems(config, st, language, pages[page], responses).1 {
      assert CollectPages(config, st, language, pages, responses, page).state == st';
    } else {
      CollectPagesKeeps(config, st', language, pages, responses, page + 1);
      assert CollectPages(config, st, language, pages, responses, page).state ==
        CollectPages(config, st', language, pages, responses, page + 1).state;
      FrameTrans(language, st.projects, st.processed, st', CollectPages(config, st', language, pages, responses, page + 1).state);
    }
  }

  /** `collect_projects(language)` on values: the quota map is computed
      once; when every quota is already full no page is requested. */
  function Collect(config: Config, projects: Projects, processed: set<string>, language: string,
                   pages: map<int, seq<Repo>>, responses: map<string, RepoResponses>): (o: Outcome)
    requires language in projects
    ensures o.state.projects.Keys == projects.Keys
  {
    var start := State(projects, processed, Quota(projects, config.sizeCategories, config.projectsPerCategory, language));
    if AllZero(start.remaining) then Outcome(start, [], false)
    else CollectPages(config, start, language, pages, responses, 1)
  }

  /** A run requests at most 50 pages, as 1, 2, ...; every page but the
      last was answered; it stops only for a crash, a missing page, page 50
      or quotas all full. */
  lemma CollectShape(config: Config, projects: Projects, processed: set<string>, language: string,
                     pages: map<int, seq<Repo>>, responses: map<string, RepoResponses>)
    requires language in projects
    ensures var o := Collect(config, projects, processed, language, pages, responses);
      && |o.requested| <= MaxPages
      && (forall i :: 0 <= i < |o.requested| ==> o.requested[i] == i + 1)
      && (forall i :: 0 <= i < |o.requested| - 1 ==> o.requested[i] in pages)
      && (o.crashed ==> |o.requested| > 0 && o.requested[|o.requested| - 1] in pages)
      && (!o.crashed ==>
            || |o.requested| == MaxPages
            || (|o.requested| > 0 && o.requested[|o.requested| - 1] !in pages)
            || forall c :: c in o.state.remaining ==> o.state.remaining[c] <= 0)
  {
    var start := State(projects, processed, Quota(projects, config.sizeCategories, config.projectsPerCategory, language));
    var o := Collect(config, projects, processed, language, pages, responses);
    if !AllZero(start.remaining) {
      CollectPagesShape(config, start, language, pages, responses, 1);
    }
    ConsecutiveIndex(1, |o.requested|);
  }

  /** A run keeps the records in one-to-one correspondence with the
      accepted names, changes only `language`'s records, and ends with the
      quota map `get_remaining_counts` would now compute. */
  lemma CollectKeeps(config: Config, projects: Projects, processed: set<string>, language: string,
                     pages: map<int, seq<Repo>>, responses: map<string, RepoResponses>)
    requires language in projects && OneRecordPerName(projects, processed)
    ensures RunInvariant(config, language, Collect(config, projects, processed, language, pages, responses).state)
    ensures Frame(language, projects, processed, Collect(config, projects, processed, language, pages, responses).state)
  {
    var start := State(projects, processed, Quota(projects, config.sizeCategories, config.projectsPerCategory, language));
    if !AllZero(start.remaining) {
      CollectPagesKeeps(config, start, language, pages, responses, 1);
    }
  }

  /** No page is requested exactly when every category already holds its
      quota, and then nothing changes. */
  lemma CollectIdle(config: Config, projects: Projects, processed: set<string>, language: string,
                    pages: map<int, seq<Repo>>, responses: map<string, RepoResponses>)
    requires language in projects
    ensures var o := Collect(config, projects, processed, language, pages, responses);
      (forall c :: c in CategoryNames(config.sizeCategories) ==>
         |Recorded(projects, language, c)| >= config.projectsPerCategory)
      <==> o.requested == []
    ensures var o := Collect(config, projects, processed, language, pages, responses);
      o.requested == [] ==> o.state.projects == projects && o.state.processed == processed
  {
    var q := Quota(projects, config.sizeCategories, config.projectsPerCategory, language);
    if !AllZero(q) {
      var c :| c in q && q[c] != 0;
      assert q[c] > 0 && |Recorded(projects, language, c)| < config.projectsPerCategory;
      assert CollectPages(config, State(projects, processed, q), language, pages, responses, 1).requested != [];
    }
  }

  // ---------------------------------------------------------------- the class

  /** The `remaining_counts` dictionary of `collect_projects`: obtained once
      from `get_remaining_counts`, handed to `_process_repo` and decremented
      in place by `_add_project`. */
  class RemainingCounts {
    var counts: map<string, int>

    constructor (counts: map<string, int>)
      ensures this.counts == counts
    {
      this.counts := counts;
    }
  }

  /** The source's GitHubProjectExtractor: the configuration, the store of
      collected projects and the set of accepted repository names. */
  class GitHubProjectExtractor {
    const config: Config
    const dataProcessor: DataProcessor
    var processedRepos: set<string>

    /** The store was built from this configuration. */
    predicate Consistent()
    {
      && dataProcessor.sizeCategories == config.sizeCategories
      && dataProcessor.projectsPerCategory == config.projectsPerCategory
    }

    /** The store follows the configuration, and its records correspond one
        to one with the accepted names: as many records as names, and the
        names of the records are the accepted names. */
    ghost predicate Valid()
      reads this, dataProcessor
    {
      && Consistent()
      && dataProcessor.projects.Keys == (set l | l in config.languages)
      && OneRecordPerName(dataProcessor.projects, processedRepos)
    }

    /** `__init__`: no projects, nothing processed. */
    constructor (config: Config)
      ensures Valid()
      ensures this.config == config
      ensures fresh(dataProcessor)
      ensures dataProcessor.projects == InitialProjects(config.languages)
      ensures processedRepos == {}
    {
      this.config := config;
      dataProcessor := new DataProcessor(config);
      processedRepos := {};
      new;
      InitialTotals(config.languages);
    }

    /** `_add_project`: append the record, remember the name, take one slot
        from its category. */
    method AddProject(repo: Repo, language: string, sizeCategory: string, linesOfCode: nat,
                      remaining: RemainingCounts, r: RepoResponses)
      requires language in dataProcessor.projects && sizeCategory in remaining.counts
      modifies this, dataProcessor, remaining
      ensures State(dataProcessor.projects, processedRepos, remaining.counts) ==
        Add(State(old(dataProcessor.projects), old(processedRepos), old(remaining.counts)), language, sizeCategory,
            Record(repo, language, sizeCategory, linesOfCode, r))
    {
      var projectInfo := Record(repo, language, sizeCategory, linesOfCode, r);
      var projects := AddRecord(dataProcessor.projects, language, sizeCategory, projectInfo);
      var names := processedRepos + {repo.fullName};
      var counts := remaining.counts[sizeCategory := remaining.counts[sizeCategory] - 1];
      dataProcessor.projects := projects;
      processedRepos := names;
      remaining.counts := counts;
    }

    /** The filters of `_process_repo`, in order, up to the quota test;
        `Crashed` is the `ZeroDivisionError` escaping. */
    method ScreenRepo(repo: Repo, language: string, remaining: map<string, int>, r: RepoResponses)
      returns (verdict: Verdict)
      requires Consistent()
      requires CategoryNames(config.sizeCategories) <= remaining.Keys
      ensures verdict == Screen(processedRepos, config, remaining, repo, language, r)
    {
      if repo.fullName in processedRepos {
        return Duplicate;
      }
      var lastCommitDate := LastCommitDate(r.commits);
      if !IsLastCommitBefore(lastCommitDate, config.targetYear) {
        return NotStale;
      }
      var dominant := CheckLanguageDominance(r.languages, language);
      if dominant.ZeroDivisionError? {
        return Crashed;
      }
      if !dominant.value {
        return NotDominant;
      }
      var linesOfCode := CountLinesOfCode(language, r);
      var sizeCategory := GetSizeCategory(dataProcessor.sizeCategories, linesOfCode);
      if sizeCategory.None? {
        return Unclassified(linesOfCode);
      }
      if remaining[sizeCategory.value] <= 0 {
        return QuotaFilled(sizeCategory.value, linesOfCode);
      }
      return Accept(sizeCategory.value, linesOfCode);
    }

    /** `_process_repo`: screen the repository and add it when it passes. */
    method ProcessRepo(repo: Repo, language: string, remaining: RemainingCounts, r: RepoResponses)
      returns (verdict: Verdict)
      requires Consistent() && Fits(config, language, State(dataProcessor.projects, processedRepos, remaining.counts))
      modifies this, dataProcessor, remaining
      ensures verdict == Screen(old(processedRepos), config, old(remaining.counts), repo, language, r)
      ensures State(dataProcessor.projects, processedRepos, remaining.counts) ==
        Step(config, State(old(dataProcessor.projects), old(processedRepos), old(remaining.counts)), language, repo, r)
    {
      verdict := ScreenRepo(repo, language, remaining.counts, r);
      if verdict.Accept? {
        AcceptedIsNew(processedRepos, config, remaining.counts, repo, language, r);
        AddProject(repo, language, verdict.category, verdict.lines, remaining, r);
      }
    }

    /** The `for repo in search_results['items']` loop of `collect_projects`;
        `crashed` reports the `ZeroDivisionError` that ends it. */
    method ProcessPage(language: string, items: seq<Repo>, remaining: RemainingCounts,
                       responses: map<string, RepoResponses>)
      returns (crashed: bool)
      requires Consistent() && Fits(config, language, State(dataProcessor.projects, processedRepos, remaining.counts))
      modifies this, dataProcessor, remaining
      ensures (State(dataProcessor.projects, processedRepos, remaining.counts), crashed) ==
        ProcessItems(config, State(old(dataProcessor.projects), old(processedRepos), old(remaining.counts)),
                     language, items, responses)
    {
      ghost var start := State(dataProcessor.projects, processedRepos, remaining.counts);
      var j := 0;
      while j < |items|
        invariant j <= |items|
        invariant Fits(config, language, State(dataProcessor.projects, processedRepos, remaining.counts))
        invariant ProcessItems(config, State(dataProcessor.projects, processedRepos, remaining.counts), language, items[j..], responses) ==
          ProcessItems(config, start, language, items, responses)
      {
        var repo := items[j];
        var r := ResponsesFor(responses, repo.fullName);
        assert items[j..][1..] == items[j + 1..];
        var verdict := ProcessRepo(repo, language, remaining, r);
        if verdict == Crashed {
          return true;
        }
        j := j + 1;
      }
      crashed := false;
    }

    /** One turn of the page loop of `collect_projects`: request page `page`,
        adding it to the pages `requested` so far, and screen its items.
        `stop` tells that the loop ends here, because the page is missing or
        an item crashed. `total` is how the whole loop ends. */
    method CollectPage(language: string, pages: map<int, seq<Repo>>, responses: map<string, RepoResponses>,
                       remaining: RemainingCounts, page: int, requested: seq<int>, ghost total: Outcome)
      returns (requested': seq<int>, stop: bool, crashed: bool)
      requires Consistent() && Fits(config, language, State(dataProcessor.projects, processedRepos, remaining.counts))
      requires AnyPositive(remaining.counts) && page <= MaxPages
      requires Join(requested, CollectPages(config, State(dataProcessor.projects, processedRepos, remaining.counts),
                                            language, pages, responses, page)) == total
      modifies this, dataProcessor, remaining
      ensures Fits(config, language, State(dataProcessor.projects, processedRepos, remaining.counts))
      ensures requested' == requested + [page]
      ensures stop ==> Outcome(State(dataProcessor.projects, processedRepos, remaining.counts), requested', crashed) == total
      ensures !stop ==> Join(requested', CollectPages(config, State(dataProcessor.projects, processedRepos, remaining.counts),
                                                     language, pages, responses, page + 1)) == total
    {
      ghost var current := State(dataProcessor.projects, processedRepos, remaining.counts);
      CollectPagesStep(config, current, language, pages, responses, page);
      requested' := requested + [page];
      if page !in pages {
        JoinJoin(requested, [page], Outcome(current, [], false));
        assert requested' + [] == requested';
        return requested', true, false;
      }
      crashed := ProcessPage(language, pages[page], remaining, responses);
      stop := crashed;
      ghost var now := State(dataProcessor.projects, processedRepos, remaining.counts);
      if crashed {
        JoinJoin(requested, [page], Outcome(now, [], true));
        assert requested' + [] == requested';
      } else {
        JoinJoin(requested, [page], CollectPages(config, now, language, pages, responses, page + 1));
      }
    }

    /** The page loop of `collect_projects`, from page `first` on, with the
        quota map held by `remaining`. */
    method CollectPageLoop(language: string, pages: map<int, seq<Repo>>, responses: map<string, RepoResponses>,
                           remaining: RemainingCounts, first: int)
      returns (requested: seq<int>, crashed: bool)
      requires Consistent() && Fits(config, language, State(dataProcessor.projects, processedRepos, remaining.counts))
      modifies this, dataProcessor, remaining
      ensures Outcome(State(dataProcessor.projects, processedRepos, remaining.counts), requested, crashed) ==
        CollectPages(config, State(old(dataProcessor.projects), old(processedRepos), old(remaining.counts)),
                     language, pages, responses, first)
    {
      ghost var total := CollectPages(config, State(dataProcessor.projects, processedRepos, remaining.counts),
                                      language, pages, responses, first);
      requested := [];
      crashed := false;
      var page := first;
      assert [] + total.requested == total.requested;
      while AnyPositive(remaining.counts) && page <= MaxPages
        invariant Fits(config, language, State(dataProcessor.projects, processedRepos, remaining.counts))
        invariant Join(requested, CollectPages(config, State(dataProcessor.projects, processedRepos, remaining.counts),
                                               language, pages, responses, page)) == total
        decreases MaxPages + 1 - page
      {
        var stop;
        requested, stop, crashed := CollectPage(language, pages, responses, remaining, page, requested, total);
        if stop {
          return;
        }
        page := page + 1;
      }
      CollectPagesDone(config, State(dataProcessor.projects, processedRepos, remaining.counts),
                       language, pages, responses, page);
      crashed := false;
      assert requested + [] == requested;
    }

    /** `collect_projects(language)`: request search pages 1, 2, ... while
        some quota is open and at most `MaxPages` of them, screening every
        item. `pages` maps a page number to its items, a missing page being
        an absent or `items`-less response; `requested` lists the pages asked
        for; `crashed` reports the `ZeroDivisionError`, after which nothing
        more happens; `remaining` is the quota map at the end. */
    method CollectProjects(language: string, pages: map<int, seq<Repo>>, responses: map<string, RepoResponses>)
      returns (remaining: map<string, int>, requested: seq<int>, crashed: bool)
      requires Valid() && language in config.languages
      modifies this, dataProcessor
      ensures Valid()
      ensures Outcome(State(dataProcessor.projects, processedRepos, remaining), requested, crashed) ==
        Collect(config, old(dataProcessor.projects), old(processedRepos), language, pages, responses)
    {
      ghost var total := Collect(config, dataProcessor.projects, processedRepos, language, pages, responses);
      CollectKeeps(config, dataProcessor.projects, processedRepos, language, pages, responses);
      var counts := dataProcessor.GetRemainingCounts(language);
      if AllZero(counts) {
        return counts, [], false;
      }
      var remainingCounts := new RemainingCounts(counts);
      requested, crashed := CollectPageLoop(language, pages, responses, remainingCounts, 1);
      remaining := remainingCounts.counts;
    }

    /** The inner sum of `_save_final_progress`: the records of one language. */
    static method CategoryTotal(categories: map<string, seq<Project>>) returns (total: nat)
      ensures total == SumOver(Counts(categories))
    {
      var rest := categories;
      total := 0;
      while rest.Keys != {}
        invariant SumOver(Counts(categories)) == total + SumOver(Counts(rest))
        decreases |rest.Keys|
      {
        var category :| category in rest;
        CountsSplit(rest, category);
        total := total + |rest[category]|;
        rest := rest - {category};
      }
    }

    /** The total in `_save_final_progress`: the number of records over all
        languages and categories, which is the number of accepted names. */
    method SaveFinalProgress() returns (totalProjects: nat)
      requires Valid()
      ensures totalProjects == TotalProjects(dataProcessor.projects)
      ensures totalProjects == |processedRepos|
    {
      var rest := dataProcessor.projects;
      totalProjects := 0;
      while rest.Keys != {}
        invariant TotalProjects(dataProcessor.projects) == totalProjects + TotalProjects(rest)
        decreases |rest.Keys|
      {
        var language :| language in rest;
        var languageTotal := CategoryTotal(rest[language]);
        TotalSplit(rest, language);
        totalProjects := totalProjects + languageTotal;
        rest := rest - {language};
      }
    }
  }
}
