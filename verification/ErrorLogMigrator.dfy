/** `migrate_to_format_error_log.py`: rewriting a file and migrating a directory. */
module ErrorLogMigrator {
  import opened Text
  import opened ErrorCodes
  import opened Splicing

  const IMPORT_LINE := "from code_indexer.server.logging.error_handler import format_error_log\n"

  predicate IsImport(line: string) {
    At(Strip(line), 0, "import ") || At(Strip(line), 0, "from ")
  }

  /** The index behind the last line that looks like an import, or 0. */
  function ImportPoint(lines: seq<string>): (p: nat)
    ensures p <= |lines|
  {
    if lines == [] then 0
    else if IsImport(lines[|lines| - 1]) then |lines|
    else ImportPoint(lines[..|lines| - 1])
  }

  lemma {:induction false} ImportPointIsLast(lines: seq<string>)
    ensures var p := ImportPoint(lines);
            (p > 0 ==> IsImport(lines[p - 1])) && forall k | p <= k < |lines| :: !IsImport(lines[k])
  {
    hide IsImport;
    if lines != [] && !IsImport(lines[|lines| - 1]) {
      ImportPointIsLast(lines[..|lines| - 1]);
    }
  }

  method FindImportPoint(lines: seq<string>) returns (point: nat)
    ensures point == ImportPoint(lines)
  {
    point := 0;
    for i := 0 to |lines|
      invariant point == ImportPoint(lines[..i])
    {
      assert lines[..i + 1][..i] == lines[..i];
      if IsImport(lines[i]) { point := i + 1; }
    }
    assert lines[..|lines|] == lines;
  }

  /** One import line behind the last import. */
  function WithImport(lines: seq<string>): seq<string> {
    lines[..ImportPoint(lines)] + [IMPORT_LINE] + lines[ImportPoint(lines)..]
  }

  /** What a file becomes: the spliced lines, with an import line where it was missing. */
  function ContentOf(lines: seq<string>, ts: seq<Transformation>, hasImport: bool): seq<string>
    requires Numbered(ts)
  {
    SortNumbered(ts);
    var spliced := SpliceAll(lines, SortByStart(ts));
    if ts == [] || hasImport then spliced else WithImport(spliced)
  }

  /** For disjoint ranges: each has given way to its replacement, and up to the import line
      nothing else changed. */
  lemma ContentIsSubstitution(lines: seq<string>, ts: seq<Transformation>, hasImport: bool)
    requires Disjoint(ts, |lines|)
    ensures Numbered(ts) && DisjointSet(Elements(ts), |lines|)
    ensures var s := Substituted(lines, Elements(ts), 0);
            ContentOf(lines, ts, hasImport) == if ts == [] || hasImport then s else WithImport(s)
  {
    hide SpliceAll, SortByStart, Substituted, WithImport;
    SplicingIsSubstitution(lines, ts);
  }

  lemma NothingToSplice(lines: seq<string>, hasImport: bool)
    ensures Numbered([]) && ContentOf(lines, [], hasImport) == lines
  {
  }

  /** `transform_file_content`, on the file's lines. */
  method TransformFileContent(content: seq<string>, transformations: seq<Transformation>, hasImport: bool)
    returns (lines: seq<string>)
    requires Numbered(transformations)
    ensures lines == ContentOf(content, transformations, hasImport)
  {
    hide SortByStart, SpliceOne, ImportPoint;
    lines := SpliceCalls(content, transformations);
    if transformations != [] && !hasImport {
      var point := FindImportPoint(lines);
      lines := lines[..point] + [IMPORT_LINE] + lines[point..];
    }
  }

  // ----- a directory -----

  /** A file: its syntax tree, if it parses, its lines, and whether it has the import. */
  datatype SourceFile = SourceFile(tree: Option<Node>, lines: seq<string>, hasImport: bool)

  function Sites(f: SourceFile): seq<Site> {
    if f.tree.Some? then Eligible(f.tree.value) else []
  }

  /** The calls of all files, in file order; a file that does not parse has none. */
  function EligibleInFiles(files: seq<SourceFile>): seq<Site> {
    if files == [] then [] else Sites(files[0]) + EligibleInFiles(files[1..])
  }

  /** Syntax trees count lines from 1. */
  predicate CountedFromOne(f: SourceFile) {
    forall k | 0 <= k < |Sites(f)| :: Sites(f)[k].start >= 1
  }

  datatype Stats = Stats(filesAnalyzed: nat, filesTransformed: nat, statementsMigrated: nat, errorCodesUsed: nat)

  lemma AssignNumbered(f: SourceFile, codes: seq<string>)
    requires CountedFromOne(f)
    ensures Numbered(Assign(Sites(f), codes))
  {
    hide Sites, Assign;
    var ts := Assign(Sites(f), codes);
    forall k | 0 <= k < |ts| ensures ts[k].site.start >= 1 { assert ts[k].site == Sites(f)[k]; }
  }

  /** A file was rewritten with its own calls. */
  predicate FileDone(f: SourceFile, ts: seq<Transformation>, content: seq<string>) {
    Numbered(ts) && content == ContentOf(f.lines, ts, f.hasImport)
  }

  /** `analyze_file`, and what is written back. */
  method MigrateFile(f: SourceFile, available: seq<string>) returns (found: seq<Transformation>, content: seq<string>)
    requires CountedFromOne(f)
    ensures found == Assign(Sites(f), available) && FileDone(f, found, content)
  {
    hide ContentOf, Eligible, Numbered;
    found := [];
    if f.tree.Some? {
      var transformer := new LoggerCallTransformer(available);
      transformer.Visit(f.tree.value);
      found := transformer.transformations;
      RecordIsAssign(Ledger(0, []), available, Eligible(f.tree.value));
      assert available[0..] == available;
    }
    assert found == Assign(Sites(f), available);
    AssignNumbered(f, available);
    content := f.lines;
    NothingToSplice(f.lines, f.hasImport);
    if |found| > 0 {
      content := TransformFileContent(f.lines, found, f.hasImport);
    }
  }

  /** Codes form a prefix of the list, also when they run out inside a file, and distinct
      codes stay distinct. */
  predicate CodesArePrefix(ts: seq<Transformation>, sites: seq<Site>, codes: seq<string>) {
    && |ts| <= |codes| && |ts| <= |sites| && (|ts| < |sites| ==> |ts| == |codes|)
    && (forall k | 0 <= k < |ts| :: ts[k] == Transformation(sites[k], codes[k]))
    && ((forall i, j | 0 <= i < j < |codes| :: codes[i] != codes[j]) ==>
          forall i, j | 0 <= i < j < |ts| :: ts[i].code != ts[j].code)
  }

  lemma AssignedCodes(sites: seq<Site>, codes: seq<string>)
    ensures CodesArePrefix(Assign(sites, codes), sites, codes)
  {
    hide Assign;
  }

  /** What holds after the first `i` files. */
  ghost predicate Migrated(files: seq<SourceFile>, codes: seq<string>, i: nat, stats: Stats, recorded: seq<seq<Transformation>>) {
    && i <= |files| && |recorded| == i == stats.filesAnalyzed
    && stats.errorCodesUsed == stats.statementsMigrated == |Flatten(recorded)| <= |codes|
    && stats.filesTransformed == CountNonEmpty(recorded)
    && Ledger(|Flatten(recorded)|, Flatten(recorded)) == Record(Ledger(0, []), codes, EligibleInFiles(files[..i]))
  }

  lemma MigratedStarts(files: seq<SourceFile>, codes: seq<string>)
    ensures Migrated(files, codes, 0, Stats(0, 0, 0, 0), [])
  {
    assert files[..0] == [];
  }

  lemma MigratedNext(files: seq<SourceFile>, codes: seq<string>, i: nat, stats: Stats, recorded: seq<seq<Transformation>>,
                     found: seq<Transformation>)
    requires i < |files| && Migrated(files, codes, i, stats, recorded)
    requires found == Assign(Sites(files[i]), codes[stats.errorCodesUsed..])
    ensures Migrated(files, codes, i + 1,
                     Stats(stats.filesAnalyzed + 1, stats.filesTransformed + (if found == [] then 0 else 1),
                           stats.statementsMigrated + |found|, stats.errorCodesUsed + |found|),
                     recorded + [found])
  {
    hide Sites, Record, Flatten, CountNonEmpty, EligibleInFiles, Assign;
    OneMoreFile(files, i, codes, stats.errorCodesUsed, recorded, found);
  }

  lemma MigratedEnds(files: seq<SourceFile>, codes: seq<string>, stats: Stats, recorded: seq<seq<Transformation>>)
    requires Migrated(files, codes, |files|, stats, recorded)
    ensures Flatten(recorded) == Assign(EligibleInFiles(files), codes)
  {
    hide Record, Flatten, CountNonEmpty, EligibleInFiles, Assign;
    assert files[..|files|] == files && codes[0..] == codes;
    RecordIsAssign(Ledger(0, []), codes, EligibleInFiles(files));
  }

  /** File `i` got the codes behind those of the files before it, for its own calls. */
  ghost predicate OwnCalls(f: SourceFile, codes: seq<string>, recorded: seq<seq<Transformation>>, i: nat)
    requires i < |recorded|
  {
    var spent := |Flatten(recorded[..i])|;
    && spent <= |codes|
    && recorded[i] == match f.tree case None => [] case Some(n) => Assign(Eligible(n), codes[spent..])
  }

  lemma OwnCallsNext(files: seq<SourceFile>, codes: seq<string>, recorded: seq<seq<Transformation>>, found: seq<Transformation>)
    requires |recorded| < |files| && |Flatten(recorded)| <= |codes|
    requires found == Assign(Sites(files[|recorded|]), codes[|Flatten(recorded)|..])
    requires forall k | 0 <= k < |recorded| :: OwnCalls(files[k], codes, recorded, k)
    ensures forall k | 0 <= k <= |recorded| :: OwnCalls(files[k], codes, recorded + [found], k)
  {
    hide Flatten, Assign, Eligible;
    var now := recorded + [found];
    assert now[..|recorded|] == recorded;
    forall k | 0 <= k < |recorded| ensures OwnCalls(files[k], codes, now, k) {
      assert now[..k] == recorded[..k] && now[k] == recorded[k];
    }
    NoSitesNoCodes(codes[|Flatten(recorded)|..]);
  }

  lemma NoSitesNoCodes(codes: seq<string>)
    ensures Assign([], codes) == []
  {
  }

  /** `migrate_files`. Over all files together the recorded calls are the eligible ones in
      file and traversal order, paired with a prefix of the code list; all four statistics
      agree; and each file is rewritten with its own calls. */
  method MigrateFiles(files: seq<SourceFile>, errorCodes: seq<string>)
    returns (stats: Stats, recorded: seq<seq<Transformation>>, contents: seq<seq<string>>)
    requires forall i | 0 <= i < |files| :: CountedFromOne(files[i])
    ensures CodesArePrefix(Flatten(recorded), EligibleInFiles(files), errorCodes)
    ensures |recorded| == |contents| == |files| == stats.filesAnalyzed
    ensures stats.errorCodesUsed == stats.statementsMigrated == |Flatten(recorded)|
    ensures stats.filesTransformed == CountNonEmpty(recorded)
    ensures forall i | 0 <= i < |files| :: FileDone(files[i], recorded[i], contents[i])
    ensures forall i | 0 <= i < |files| :: OwnCalls(files[i], errorCodes, recorded, i)
  {
    hide FileDone, CountedFromOne, Sites, Flatten, CountNonEmpty, EligibleInFiles, Record, Assign, OwnCalls;
    stats, recorded, contents := Stats(0, 0, 0, 0), [], [];
    MigratedStarts(files, errorCodes);
    for i := 0 to |files|
      invariant Migrated(files, errorCodes, i, stats, recorded) && |contents| == i
      invariant forall k | 0 <= k < i :: FileDone(files[k], recorded[k], contents[k])
      invariant forall k | 0 <= k < i :: OwnCalls(files[k], errorCodes, recorded, k)
    {
      var found, content := MigrateFile(files[i], errorCodes[stats.errorCodesUsed..]);
      MigratedNext(files, errorCodes, i, stats, recorded, found);
      stats := stats.(filesAnalyzed := stats.filesAnalyzed + 1);
      if |found| > 0 {
        stats := stats.(filesTransformed := stats.filesTransformed + 1,
                        statementsMigrated := stats.statementsMigrated + |found|,
                        errorCodesUsed := stats.errorCodesUsed + |found|);
      }
      OwnCallsNext(files, errorCodes, recorded, found);
      recorded, contents := recorded + [found], contents + [content];
    }
    MigratedEnds(files, errorCodes, stats, recorded);
    AssignedCodes(EligibleInFiles(files), errorCodes);
  }

  function Flatten(xss: seq<seq<Transformation>>): seq<Transformation> {
    if xss == [] then [] else xss[0] + Flatten(xss[1..])
  }

  function CountNonEmpty(xss: seq<seq<Transformation>>): nat {
    if xss == [] then 0 else (if xss[0] == [] then 0 else 1) + CountNonEmpty(xss[1..])
  }

  lemma {:induction false} FlattenSnoc(xss: seq<seq<Transformation>>, xs: seq<Transformation>)
    ensures Flatten(xss + [xs]) == Flatten(xss) + xs
    ensures CountNonEmpty(xss + [xs]) == CountNonEmpty(xss) + (if xs == [] then 0 else 1)
  {
    if xss == [] {
      assert (xss + [xs])[1..] == [];
    } else {
      FlattenSnoc(xss[1..], xs);
      assert (xss + [xs])[1..] == xss[1..] + [xs];
    }
  }

  lemma {:induction false} EligibleSnoc(files: seq<SourceFile>, f: SourceFile)
    ensures EligibleInFiles(files + [f]) == EligibleInFiles(files) + Sites(f)
  {
    hide Sites;
    if files == [] {
      assert (files + [f])[1..] == [];
    } else {
      EligibleSnoc(files[1..], f);
      assert (files + [f])[1..] == files[1..] + [f];
    }
  }

  /** One file's calls, recorded with the codes the files before it left. */
  lemma OneMoreFile(files: seq<SourceFile>, i: nat, codes: seq<string>, offset: nat,
                    recorded: seq<seq<Transformation>>, found: seq<Transformation>)
    requires i < |files| && offset <= |codes|
    requires Ledger(offset, Flatten(recorded)) == Record(Ledger(0, []), codes, EligibleInFiles(files[..i]))
    requires found == Assign(Sites(files[i]), codes[offset..])
    ensures Flatten(recorded + [found]) == Flatten(recorded) + found
    ensures CountNonEmpty(recorded + [found]) == CountNonEmpty(recorded) + (if found == [] then 0 else 1)
    ensures Ledger(offset + |found|, Flatten(recorded + [found]))
         == Record(Ledger(0, []), codes, EligibleInFiles(files[..i + 1]))
  {
    hide Sites, Record, Flatten, CountNonEmpty, EligibleInFiles, Assign;
    FlattenSnoc(recorded, found);
    assert files[..i + 1] == files[..i] + [files[i]];
    EligibleSnoc(files[..i], files[i]);
    RecordConcat(Ledger(0, []), codes, EligibleInFiles(files[..i]), Sites(files[i]));
    RecordIsAssign(Ledger(offset, Flatten(recorded)), codes, Sites(files[i]));
  }

  // ----- when the calls of a file are disjoint -----

  predicate SitesApart(a: Site, b: Site) { a.end < b.start || b.end < a.start }

  predicate AllApart(sites: seq<Site>) {
    forall i, j | 0 <= i < j < |sites| :: SitesApart(sites[i], sites[j])
  }

  predicate CrossApart(a: seq<Site>, b: seq<Site>) {
    forall i, j | 0 <= i < |a| && 0 <= j < |b| :: SitesApart(a[i], b[j])
  }

  predicate Within(site: Site, lo: nat, hi: nat) { lo <= site.start <= site.end <= hi }

  /** Syntax trees are nested: a call lies within what encloses it, and so do its parts. */
  predicate Placed(n: Node, lo: nat, hi: nat) {
    if IsLoggerCall(n) then Within(SiteOf(n), lo, hi) && PlacedAll(n.children, n.start, n.end)
    else PlacedAll(n.children, lo, hi)
  }

  predicate PlacedAll(ns: seq<Node>, lo: nat, hi: nat) {
    ns == [] || (Placed(ns[0], lo, hi) && PlacedAll(ns[1..], lo, hi))
  }

  /** No recorded call has another one inside, and those of different parts share no line. */
  predicate Flat(n: Node) {
    if IsLoggerCall(n) then UsesFormatErrorLog(n) || EligibleAll(n.children) == [] else FlatAll(n.children)
  }

  predicate FlatAll(ns: seq<Node>) {
    ns == [] || (Flat(ns[0]) && FlatAll(ns[1..]) && CrossApart(Eligible(ns[0]), EligibleAll(ns[1..])))
  }

  lemma {:induction false} EligibleWithin(n: Node, lo: nat, hi: nat, site: Site)
    requires Placed(n, lo, hi) && site in Eligible(n)
    ensures Within(site, lo, hi)
    decreases n, 0
  {
    hide UsesFormatErrorLog;
    if !IsLoggerCall(n) {
      EligibleAllWithin(n.children, lo, hi, site);
    } else if site != SiteOf(n) {
      EligibleAllWithin(n.children, n.start, n.end, site);
    }
  }

  lemma {:induction false} EligibleAllWithin(ns: seq<Node>, lo: nat, hi: nat, site: Site)
    requires PlacedAll(ns, lo, hi) && site in EligibleAll(ns)
    ensures Within(site, lo, hi)
    decreases ns, 1
  {
    if site in Eligible(ns[0]) { EligibleWithin(ns[0], lo, hi, site); } else { EligibleAllWithin(ns[1..], lo, hi, site); }
  }

  lemma ApartConcat(a: seq<Site>, b: seq<Site>)
    ensures AllApart(a + b) <==> AllApart(a) && AllApart(b) && CrossApart(a, b)
  {
    hide SitesApart;
    var t := a + b;
    if AllApart(t) {
      forall i, j | 0 <= i < j < |a| ensures SitesApart(a[i], a[j]) { assert a[i] == t[i] && a[j] == t[j]; }
      forall i, j | 0 <= i < j < |b| ensures SitesApart(b[i], b[j]) { assert b[i] == t[|a| + i] && b[j] == t[|a| + j]; }
      forall i, j | 0 <= i < |a| && 0 <= j < |b| ensures SitesApart(a[i], b[j]) { assert a[i] == t[i] && b[j] == t[|a| + j]; }
    }
  }

  lemma {:induction false} ApartIffFlat(n: Node, lo: nat, hi: nat)
    requires Placed(n, lo, hi)
    ensures AllApart(Eligible(n)) <==> Flat(n)
    decreases n, 0
  {
    hide UsesFormatErrorLog;
    if !IsLoggerCall(n) {
      AllApartIffFlat(n.children, lo, hi);
    } else {
      var inside := EligibleAll(n.children);
      if !UsesFormatErrorLog(n) && inside != [] {
        EligibleAllWithin(n.children, n.start, n.end, inside[0]);
        assert Eligible(n) == [SiteOf(n)] + inside;
        assert !SitesApart(Eligible(n)[0], Eligible(n)[1]);
      }
    }
  }

  lemma {:induction false} AllApartIffFlat(ns: seq<Node>, lo: nat, hi: nat)
    requires PlacedAll(ns, lo, hi)
    ensures AllApart(EligibleAll(ns)) <==> FlatAll(ns)
    decreases ns, 1
  {
    hide AllApart, CrossApart, Flat, Eligible;
    if ns != [] {
      ApartIffFlat(ns[0], lo, hi);
      AllApartIffFlat(ns[1..], lo, hi);
      ApartConcat(Eligible(ns[0]), EligibleAll(ns[1..]));
    } else {
      NoneApart();
    }
  }

  lemma NoneApart()
    ensures AllApart([])
  {
  }

  /** The ranges recorded for a file are disjoint, and so the rewritten file is the
      simultaneous substitution, exactly when the calls that got a code are pairwise apart.
      With enough codes that is so exactly when no recorded call has another one inside
      and no two share a line. */
  lemma RecordedDisjointIff(n: Node, codes: seq<string>, lines: nat)
    requires Placed(n, 1, lines)
    ensures Disjoint(Assign(Eligible(n), codes), lines) <==> AllApart(Eligible(n)[..|Assign(Eligible(n), codes)|])
    ensures |codes| >= |Eligible(n)| ==> (Disjoint(Assign(Eligible(n), codes), lines) <==> Flat(n))
  {
    hide Placed, Flat, Eligible, Assign;
    var ts := Assign(Eligible(n), codes);
    var sites := Eligible(n)[..|ts|];
    ApartIffFlat(n, 1, lines);
    assert |codes| >= |Eligible(n)| ==> sites == Eligible(n);
    forall k | 0 <= k < |ts| ensures ts[k].site == sites[k] && Fits(ts[k], lines) {
      EligibleWithin(n, 1, lines, sites[k]);
    }
    if Disjoint(ts, lines) {
      forall i, j | 0 <= i < j < |sites| ensures SitesApart(sites[i], sites[j]) { assert Apart(ts[i], ts[j]); }
    }
    if AllApart(sites) {
      forall i, j | 0 <= i < j < |ts| ensures Apart(ts[i], ts[j]) { assert SitesApart(sites[i], sites[j]); }
    }
  }
}
