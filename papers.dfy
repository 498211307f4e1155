/**
 * ingest_papers.py: the papers registry, the batch ingestion that walks it
 * (`ingest_all_papers`) and the listing grouped by category (`list_papers`).
 *
 * Whether a PDF exists and whether ingesting it succeeds are outside the
 * model: they are the parameters `fileExists` (on the path) and `ingestOk`
 * (on the paper's position in the registry).
 */
module Papers {
  import opened Wrappers

  /** One entry of `papers_registry.json`; `ingested` is None when the key is absent. */
  datatype Paper = Paper(
    id: string,
    filename: string,
    category: string,
    title: string,
    authors: seq<string>,
    year: int,
    ingested: Option<bool>)

  /** `paper.get('ingested', False)`. */
  predicate IsIngested(p: Paper) {
    p.ingested == Some(true)
  }

  /** `papers_dir / category / filename`. */
  function PdfPath(papersDir: string, p: Paper): (r: string) {
    papersDir + "/" + p.category + "/" + p.filename
  }

  // ----- Batch ingestion -----

  /** What the loop does with one paper. */
  datatype Outcome = Skipped | MissingFile | Failed | Ingested

  /** The world the loop runs in. */
  datatype Env = Env(force: bool, papersDir: string, fileExists: string -> bool, ingestOk: nat -> bool)

  /** Skip an ingested paper unless forced; then a missing PDF, a failing ingestion, or success. */
  function Visit(p: Paper, force: bool, fileFound: bool, ingestSucceeds: bool): (r: Outcome) {
    if IsIngested(p) && !force then Skipped
    else if !fileFound then MissingFile
    else if !ingestSucceeds then Failed
    else Ingested
  }

  /** The outcome for the paper at position `i`. */
  function OutcomeAt(papers: seq<Paper>, i: nat, env: Env): (r: Outcome)
    requires i < |papers|
  {
    Visit(papers[i], env.force, env.fileExists(PdfPath(env.papersDir, papers[i])), env.ingestOk(i))
  }

  /** Only a successful ingestion writes to the record, and only `ingested`. */
  function AfterVisit(p: Paper, o: Outcome): (r: Paper) {
    if o == Ingested then p.(ingested := Some(true)) else p
  }

  /** The registry as it is saved at the end. */
  function Processed(papers: seq<Paper>, env: Env): (r: seq<Paper>)
    ensures |r| == |papers|
  {
    seq(|papers|, i requires 0 <= i < |papers| => AfterVisit(papers[i], OutcomeAt(papers, i, env)))
  }

  /** The counters printed in the summary. */
  datatype Summary = Summary(ingested: nat, skipped: nat, errors: nat, total: nat)

  /** One counter goes up per paper; a missing PDF and a failed ingestion both count as errors. */
  function Record(s: Summary, o: Outcome): (r: Summary) {
    match o
    case Ingested => s.(ingested := s.ingested + 1)
    case Skipped => s.(skipped := s.skipped + 1)
    case MissingFile => s.(errors := s.errors + 1)
    case Failed => s.(errors := s.errors + 1)
  }

  /** The counters after the first `upto` papers. */
  function TallyUpTo(papers: seq<Paper>, env: Env, upto: nat): (r: Summary)
    requires upto <= |papers|
  {
    if upto == 0 then Summary(0, 0, 0, |papers|)
    else Record(TallyUpTo(papers, env, upto - 1), OutcomeAt(papers, upto - 1, env))
  }

  function Tally(papers: seq<Paper>, env: Env): (r: Summary) {
    TallyUpTo(papers, env, |papers|)
  }

  /** How many papers have `ingested` set, the figure `list_papers` prints. */
  function IngestedCount(papers: seq<Paper>): (c: nat)
    ensures c <= |papers|
  {
    if |papers| == 0 then 0
    else IngestedCount(papers[..|papers| - 1]) + (if IsIngested(papers[|papers| - 1]) then 1 else 0)
  }

  /** The registry loaded from `papers_registry.json`; `IngestAll` updates its records. */
  class Registry {
    var papers: seq<Paper>

    constructor (papers: seq<Paper>)
      ensures this.papers == papers
    {
      this.papers := papers;
    }

    /** `ingest_all_papers(force)`: the records after the loop, and its counters. */
    method IngestAll(env: Env) returns (summary: Summary)
      modifies this
      ensures papers == Processed(old(papers), env)
      ensures summary == Tally(old(papers), env)
    {
      var original := papers;
      var total := |papers|;
      var ingestedCount, skippedCount, errorCount := 0, 0, 0;
      var i := 0;
      while i < |papers|
        invariant |papers| == |original| && i <= |papers|
        invariant forall j :: 0 <= j < i ==> papers[j] == AfterVisit(original[j], OutcomeAt(original, j, env))
        invariant forall j :: i <= j < |papers| ==> papers[j] == original[j]
        invariant Summary(ingestedCount, skippedCount, errorCount, total) == TallyUpTo(original, env, i)
      {
        var paper := papers[i];
        var pdfPath := PdfPath(env.papersDir, paper);
        ghost var outcome := OutcomeAt(original, i, env);
        if IsIngested(paper) && !env.force {
          assert outcome == Skipped;
          skippedCount := skippedCount + 1;
        } else if !env.fileExists(pdfPath) {
          assert outcome == MissingFile;
          errorCount := errorCount + 1;
        } else if env.ingestOk(i) {
          assert outcome == Ingested;
          papers := papers[i := paper.(ingested := Some(true))];
          ingestedCount := ingestedCount + 1;
        } else {
          assert outcome == Failed;
          errorCount := errorCount + 1;
        }
        i := i + 1;
      }
      summary := Summary(ingestedCount, skippedCount, errorCount, total);
    }

    /** `list_papers()`: the papers grouped by category, and the ingested count. */
    method List() returns (listing: Listing)
      ensures Sorted(Names(listing.groups))
      ensures forall c :: c in Names(listing.groups) <==> c in Categories(papers)
      ensures forall k :: 0 <= k < |listing.groups| ==>
        listing.groups[k].papers == Filter(papers, listing.groups[k].category)
      ensures listing.ingested == IngestedCount(papers)
      ensures listing.total == |papers|
    {
      var categories, order := GroupByCategory(papers);
      var sorted := SortNames(order);
      var groups := seq(|sorted|, k requires 0 <= k < |sorted| => Group(sorted[k], categories[sorted[k]]));
      assert Names(groups) == sorted;
      var ingested := CountIngested(papers);
      listing := Listing(groups, ingested, |papers|);
    }
  }

  /**
   * The grouping loop of `list_papers`: a category is created on its first
   * paper and every paper is appended to its category's list; `order` is
   * the order in which the categories were created.
   */
  method GroupByCategory(papers: seq<Paper>) returns (categories: map<string, seq<Paper>>, order: seq<string>)
    ensures forall c :: c in categories <==> c in Categories(papers)
    ensures forall c :: c in categories ==> categories[c] == Filter(papers, c)
    ensures forall c :: c in order <==> c in categories
    ensures Distinct(order)
  {
    categories, order := map[], [];
    var i := 0;
    while i < |papers|
      invariant i <= |papers|
      invariant forall c :: c in categories <==> c in Categories(papers[..i])
      invariant forall c :: c in categories ==> categories[c] == Filter(papers[..i], c)
      invariant forall c :: c in order <==> c in categories
      invariant Distinct(order)
    {
      var cat := papers[i].category;
      CategoriesOfSnoc(papers[..i], papers[i]);
      assert papers[..i + 1] == papers[..i] + [papers[i]];
      forall c
        ensures Filter(papers[..i + 1], c) == Filter(papers[..i], c) + (if cat == c then [papers[i]] else [])
      {
        FilterSnoc(papers[..i], papers[i], c);
      }
      if cat !in categories {
        FilterContents(papers[..i], cat);
        categories := categories[cat := []];
        order := order + [cat];
      }
      categories := categories[cat := categories[cat] + [papers[i]]];
      i := i + 1;
    }
    assert papers[..|papers|] == papers;
  }

  /** `sorted(...)` over distinct category names: the same names, strictly increasing. */
  method SortNames(names: seq<string>) returns (sorted: seq<string>)
    requires Distinct(names)
    ensures Sorted(sorted)
    ensures forall c :: c in sorted <==> c in names
  {
    sorted := [];
    var j := 0;
    while j < |names|
      invariant j <= |names|
      invariant Sorted(sorted)
      invariant forall c :: c in sorted <==> c in names[..j]
    {
      assert names[j] !in names[..j];
      InsertSorted(sorted, names[j]);
      assert names[..j + 1] == names[..j] + [names[j]];
      sorted := Insert(sorted, names[j]);
      j := j + 1;
    }
    assert names[..|names|] == names;
  }

  /** `sum(1 for p in papers if p.get('ingested', False))`. */
  method CountIngested(papers: seq<Paper>) returns (count: nat)
    ensures count == IngestedCount(papers)
  {
    count := 0;
    var t := 0;
    while t < |papers|
      invariant t <= |papers|
      invariant count == IngestedCount(papers[..t])
    {
      assert papers[..t + 1][..t] == papers[..t];
      if IsIngested(papers[t]) {
        count := count + 1;
      }
      t := t + 1;
    }
    assert papers[..|papers|] == papers;
  }

  // ----- Properties of the ingestion -----

  /** Every paper is counted exactly once: ingested + skipped + errors == total. */
  lemma {:induction false} TallyAddsUp(papers: seq<Paper>, env: Env, upto: nat)
    requires upto <= |papers|
    ensures var s := TallyUpTo(papers, env, upto);
      s.ingested + s.skipped + s.errors == upto && s.total == |papers|
  {
    if upto > 0 {
      TallyAddsUp(papers, env, upto - 1);
    }
  }

  /** With `force` nothing is skipped. */
  lemma {:induction false} ForceSkipsNothing(papers: seq<Paper>, env: Env, upto: nat)
    requires env.force && upto <= |papers|
    ensures TallyUpTo(papers, env, upto).skipped == 0
  {
    if upto > 0 {
      ForceSkipsNothing(papers, env, upto - 1);
    }
  }

  /** Without `force` exactly the papers already marked ingested are skipped. */
  lemma {:induction false} SkippedAreTheIngested(papers: seq<Paper>, env: Env, upto: nat)
    requires !env.force && upto <= |papers|
    ensures TallyUpTo(papers, env, upto).skipped == IngestedCount(papers[..upto])
  {
    if upto > 0 {
      SkippedAreTheIngested(papers, env, upto - 1);
      assert papers[..upto][..upto - 1] == papers[..upto - 1];
    }
  }

  /**
   * A record changes only in `ingested`, which becomes true exactly for the
   * papers ingested successfully; skipped, missing and failed papers keep
   * their record, so a failure never clears an earlier `ingested`.
   */
  lemma ProcessedRecords(papers: seq<Paper>, env: Env, i: nat)
    requires i < |papers|
    ensures var p, q := papers[i], Processed(papers, env)[i];
      && q.(ingested := p.ingested) == p
      && (IsIngested(q) <==> IsIngested(p) || OutcomeAt(papers, i, env) == Ingested)
      && (OutcomeAt(papers, i, env) != Ingested ==> q == p)
  {
  }

  /** A run without `force` adds its successes to the ingested count `list_papers` prints. */
  lemma {:induction false} IngestedCountGrows(papers: seq<Paper>, env: Env, upto: nat)
    requires !env.force && upto <= |papers|
    ensures IngestedCount(Processed(papers, env)[..upto])
        == IngestedCount(papers[..upto]) + TallyUpTo(papers, env, upto).ingested
  {
    if upto > 0 {
      IngestedCountGrows(papers, env, upto - 1);
      var after := Processed(papers, env);
      var o := OutcomeAt(papers, upto - 1, env);
      assert after[..upto][..upto - 1] == after[..upto - 1];
      assert papers[..upto][..upto - 1] == papers[..upto - 1];
      assert IngestedCount(after[..upto]) == IngestedCount(after[..upto - 1]) + (if IsIngested(after[upto - 1]) then 1 else 0);
      assert IngestedCount(papers[..upto]) == IngestedCount(papers[..upto - 1]) + (if IsIngested(papers[upto - 1]) then 1 else 0);
      assert after[upto - 1] == AfterVisit(papers[upto - 1], o);
      assert o == Ingested ==> !IsIngested(papers[upto - 1]);
    }
  }

  /** Running again without `force` skips every paper the first run ingested. */
  lemma IngestedPapersAreSkippedNextTime(papers: seq<Paper>, env: Env, env2: Env, i: nat)
    requires i < |papers| && !env2.force
    requires OutcomeAt(papers, i, env) == Ingested
    ensures OutcomeAt(Processed(papers, env), i, env2) == Skipped
  {
  }

  // ----- The listing -----

  /** `s` is a string smaller than `t` in Python's order: by code point, a prefix first. */
  predicate Less(s: string, t: string)
    decreases |s|
  {
    |t| > 0 && (|s| == 0 || s[0] < t[0] || (s[0] == t[0] && Less(s[1..], t[1..])))
  }

  lemma {:induction false} LessIrreflexive(s: string)
    ensures !Less(s, s)
    decreases |s|
  {
    if |s| > 0 {
      LessIrreflexive(s[1..]);
    }
  }

  lemma {:induction false} LessTransitive(s: string, t: string, u: string)
    requires Less(s, t) && Less(t, u)
    ensures Less(s, u)
    decreases |s|
  {
    if |s| > 0 && s[0] == t[0] && t[0] == u[0] {
      LessTransitive(s[1..], t[1..], u[1..]);
    }
  }

  lemma {:induction false} LessTotal(s: string, t: string)
    requires s != t
    ensures Less(s, t) || Less(t, s)
    decreases |s|
  {
    if |s| > 0 && |t| > 0 && s[0] == t[0] {
      assert s[1..] != t[1..];
      LessTotal(s[1..], t[1..]);
    }
  }

  /** Strictly increasing, hence without repeats. */
  predicate Sorted(xs: seq<string>) {
    forall i, j :: 0 <= i < j < |xs| ==> Less(xs[i], xs[j])
  }

  predicate Distinct(xs: seq<string>) {
    forall i, j :: 0 <= i < j < |xs| ==> xs[i] != xs[j]
  }

  /** Insert a new name into a sorted sequence. */
  function Insert(xs: seq<string>, x: string): (r: seq<string>) {
    if |xs| == 0 then [x]
    else if Less(x, xs[0]) then [x] + xs
    else [xs[0]] + Insert(xs[1..], x)
  }

  lemma {:induction false} InsertSorted(xs: seq<string>, x: string)
    requires Sorted(xs) && x !in xs
    ensures Sorted(Insert(xs, x))
    ensures forall c :: c in Insert(xs, x) <==> c in xs || c == x
  {
    if |xs| > 0 {
      if Less(x, xs[0]) {
        var r := [x] + xs;
        forall i, j | 0 <= i < j < |r|
          ensures Less(r[i], r[j])
        {
          if i == 0 && j > 1 {
            LessTransitive(x, xs[0], xs[j - 1]);
          }
        }
      } else {
        LessTotal(x, xs[0]);
        var tail := xs[1..];
        assert Sorted(tail) by {
          forall i, j | 0 <= i < j < |tail|
            ensures Less(tail[i], tail[j])
          {
            assert tail[i] == xs[i + 1] && tail[j] == xs[j + 1];
          }
        }
        InsertSorted(tail, x);
        var ins := Insert(tail, x);
        var r := [xs[0]] + ins;
        assert forall c :: c in xs <==> c == xs[0] || c in tail by {
          assert xs == [xs[0]] + tail;
        }
        forall i, j | 0 <= i < j < |r|
          ensures Less(r[i], r[j])
        {
          if i == 0 {
            assert r[j] in ins;
            if r[j] != x {
              assert r[j] in tail;
              var k :| 0 <= k < |tail| && tail[k] == r[j];
              assert Less(xs[0], xs[k + 1]);
            }
          } else {
            assert r[i] == ins[i - 1] && r[j] == ins[j - 1];
          }
        }
      }
    }
  }

  /** `paper['category']` of every paper. */
  function Categories(papers: seq<Paper>): (r: set<string>) {
    set p | p in papers :: p.category
  }

  lemma CategoriesOfSnoc(papers: seq<Paper>, p: Paper)
    ensures Categories(papers + [p]) == Categories(papers) + {p.category}
  {
    assert forall q :: q in papers + [p] <==> q in papers || q == p;
  }

  /** The papers of one category, in registry order. */
  function Filter(papers: seq<Paper>, c: string): (r: seq<Paper>)
    ensures |r| <= |papers|
  {
    if |papers| == 0 then []
    else Filter(papers[..|papers| - 1], c) + (if papers[|papers| - 1].category == c then [papers[|papers| - 1]] else [])
  }

  lemma FilterSnoc(papers: seq<Paper>, p: Paper, c: string)
    ensures Filter(papers + [p], c) == Filter(papers, c) + (if p.category == c then [p] else [])
  {
    assert (papers + [p])[..|papers|] == papers;
  }

  /** One category with its papers. */
  datatype Group = Group(category: string, papers: seq<Paper>)

  /** What `list_papers` prints: the groups in category order, then ingested / total. */
  datatype Listing = Listing(groups: seq<Group>, ingested: nat, total: nat)

  function Names(groups: seq<Group>): (r: seq<string>)
    ensures |r| == |groups|
  {
    seq(|groups|, k requires 0 <= k < |groups| => groups[k].category)
  }

  // ----- Properties of the listing -----

  /** A group holds exactly the papers of its category, and a listed category has at least one. */
  lemma {:induction false} FilterContents(papers: seq<Paper>, c: string)
    ensures forall q :: q in Filter(papers, c) <==> q in papers && q.category == c
    ensures c in Categories(papers) <==> |Filter(papers, c)| > 0
  {
    if |papers| > 0 {
      var init := papers[..|papers| - 1];
      FilterContents(init, c);
      assert papers == init + [papers[|papers| - 1]];
      CategoriesOfSnoc(init, papers[|papers| - 1]);
    }
  }

  /** The number of papers in the categories `cats`. */
  function GroupSizes(papers: seq<Paper>, cats: seq<string>): (r: nat) {
    if |cats| == 0 then 0 else |Filter(papers, cats[0])| + GroupSizes(papers, cats[1..])
  }

  /** How many of `cats` are `c`. */
  function Occurrences(cats: seq<string>, c: string): (r: nat) {
    if |cats| == 0 then 0 else (if cats[0] == c then 1 else 0) + Occurrences(cats[1..], c)
  }

  lemma {:induction false} OccursOnce(cats: seq<string>, c: string)
    requires Distinct(cats) && c in cats
    ensures Occurrences(cats, c) == 1
  {
    var tail := cats[1..];
    assert Distinct(tail) by {
      forall i, j | 0 <= i < j < |tail|
        ensures tail[i] != tail[j]
      {
        assert tail[i] == cats[i + 1] && tail[j] == cats[j + 1];
      }
    }
    if cats[0] == c {
      NotOccurring(tail, c);
    } else {
      assert c in tail;
      OccursOnce(tail, c);
    }
  }

  lemma {:induction false} NotOccurring(cats: seq<string>, c: string)
    requires c !in cats
    ensures Occurrences(cats, c) == 0
  {
    if |cats| > 0 {
      assert forall k :: 0 <= k < |cats| - 1 ==> cats[1..][k] == cats[k + 1];
      NotOccurring(cats[1..], c);
    }
  }

  lemma {:induction false} GroupSizesSnoc(papers: seq<Paper>, p: Paper, cats: seq<string>)
    ensures GroupSizes(papers + [p], cats) == GroupSizes(papers, cats) + Occurrences(cats, p.category)
  {
    if |cats| > 0 {
      GroupSizesSnoc(papers, p, cats[1..]);
      assert (papers + [p])[..|papers|] == papers;
    }
  }

  /**
   * Grouping loses and duplicates nothing: over distinct categories that
   * cover every paper, the group sizes add up to the number of papers.
   */
  lemma {:induction false} GroupsPartitionPapers(papers: seq<Paper>, cats: seq<string>)
    requires Distinct(cats)
    requires forall c :: c in Categories(papers) ==> c in cats
    ensures GroupSizes(papers, cats) == |papers|
  {
    if |papers| == 0 {
      EmptyGroups(cats);
    } else {
      var init, p := papers[..|papers| - 1], papers[|papers| - 1];
      assert papers == init + [p];
      CategoriesOfSnoc(init, p);
      GroupsPartitionPapers(init, cats);
      GroupSizesSnoc(init, p, cats);
      OccursOnce(cats, p.category);
    }
  }

  lemma {:induction false} EmptyGroups(cats: seq<string>)
    ensures GroupSizes([], cats) == 0
  {
    if |cats| > 0 {
      EmptyGroups(cats[1..]);
    }
  }

  /** Sorted names are distinct, so the listing's groups cover every paper exactly once. */
  lemma ListingCoversEveryPaper(papers: seq<Paper>, listing: Listing)
    requires Sorted(Names(listing.groups))
    requires forall c :: c in Names(listing.groups) <==> c in Categories(papers)
    ensures GroupSizes(papers, Names(listing.groups)) == |papers|
  {
    var names := Names(listing.groups);
    forall i, j | 0 <= i < j < |names|
      ensures names[i] != names[j]
    {
      if names[i] == names[j] {
        LessIrreflexive(names[i]);
      }
    }
    GroupsPartitionPapers(papers, names);
  }
}
