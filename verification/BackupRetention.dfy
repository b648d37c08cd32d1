/** Retention of backups: which records a plan selects for deletion, and what applying it removes. */
module BackupRetention {
  import opened Wrappers
  import opened Sorting

  /** Times in nanoseconds; paths are canonical. Identities are a primary key of the catalog. */
  datatype Record = Record(id: string, path: string, sha: string, size: nat, created: int)

  /** A file in the backup root; sound says that it is regular and that its database is intact. */
  datatype File = File(sha: string, size: nat, sound: bool)

  type Files = map<string, File>

  datatype Policy = Policy(applyEnabled: bool, keepLatest: nat, minimumAgeHours: nat, maximumDeleteBytes: nat)

  predicate Healthy(files: Files, r: Record) {
    r.path in files && files[r.path] == File(r.sha, r.size, true)
  }

  // ---- The order of the catalog ----

  /** Newest first; among records of the same time the greater identity. */
  predicate Newer(a: Record, b: Record) {
    a.created > b.created || (a.created == b.created && Less(b.id, a.id))
  }

  function IdOf(r: Record): string { r.id }

  function NewestFirst(records: seq<Record>): seq<Record> {
    SortBy(Newer, records)
  }

  lemma NewerIsOrder()
    ensures Asymmetric(Newer) && NegativelyTransitive(Newer)
  {
    forall a, b | Newer(a, b) ensures !Newer(b, a) {
      if a.created == b.created { LessIsAsymmetric(b.id, a.id); }
    }
    forall a, b, c | !Newer(b, a) && !Newer(c, b) ensures !Newer(c, a) {
      if a.created == b.created == c.created { LessCarriesOver(c.id, b.id, a.id); }
    }
  }

  lemma SortedCatalog(records: seq<Record>)
    requires DistinctKeys(IdOf, records)
    ensures Ordered(Newer, NewestFirst(records)) && |NewestFirst(records)| == |records|
    ensures DistinctKeys(IdOf, NewestFirst(records))
    ensures forall r :: r in NewestFirst(records) <==> r in records
  {
    NewerIsOrder();
    SortOrders(Newer, records);
    SortKeeps(Newer, records);
    Rearranged(records, NewestFirst(records));
    KeysStayDistinct(IdOf, records, NewestFirst(records));
  }

  lemma {:induction false} LessIsTotal(a: string, b: string)
    requires a != b
    ensures Less(a, b) || Less(b, a)
  {
    if a != [] && b != [] && a[0] == b[0] {
      assert a == [a[0]] + a[1..] && b == [b[0]] + b[1..];
      LessIsTotal(a[1..], b[1..]);
    }
  }

  ghost function NewerThan(records: seq<Record>, r: Record): set<Record> {
    set x | x in records && (x.created > r.created || (x.created == r.created && Less(r.id, x.id)))
  }

  /** The position in the sorted catalog is the number of newer records. */
  lemma PositionCounts(records: seq<Record>, i: nat)
    requires DistinctKeys(IdOf, records) && i < |records|
    ensures i < |NewestFirst(records)| && |NewerThan(records, NewestFirst(records)[i])| == i
  {
    SortedCatalog(records);
    var sorted := NewestFirst(records);
    var before := sorted[..i];
    var r := sorted[i];
    forall x ensures x in NewerThan(records, r) <==> x in before {
      if x in sorted {
        var k :| 0 <= k < |sorted| && sorted[k] == x;
        StrictlyOrdered(sorted, i, k);
        assert k < i ==> before[k] == x;
      }
      if x in before {
        var k :| 0 <= k < i && before[k] == x;
        StrictlyOrdered(sorted, i, k);
        assert sorted[k] in sorted;
      }
    }
    CountElements(before);
    assert NewerThan(records, r) == set x | x in before;
  }

  lemma StrictlyOrdered(sorted: seq<Record>, i: nat, k: nat)
    requires Ordered(Newer, sorted) && DistinctKeys(IdOf, sorted) && i < |sorted| && k < |sorted|
    ensures Newer(sorted[k], sorted[i]) <==> k < i
  {
    if k < i {
      assert IdOf(sorted[k]) != IdOf(sorted[i]);
      LessIsTotal(sorted[k].id, sorted[i].id);
    } else if i < k {
      assert !Newer(sorted[k], sorted[i]);
    } else if Less(sorted[i].id, sorted[i].id) {
      LessIsAsymmetric(sorted[i].id, sorted[i].id);
    }
  }

  lemma CountElements(list: seq<Record>)
    requires DistinctKeys(IdOf, list)
    ensures |set x | x in list| == |list|
  {
    assert DistinctKeys(Self, list) by {
      forall i, j | 0 <= i < j < |list|
          ensures Self(list[i]) != Self(list[j]) { assert IdOf(list[i]) != IdOf(list[j]); }
    }
    CountKeys(Self, list);
    assert Keys(Self, list) == set x | x in list;
  }

  function Self(r: Record): Record { r }

  // ---- The cutoff ----

  const HOUR: int := 3_600_000_000_000
  const TWO_63: int := 0x8000_0000_0000_0000
  const TWO_64: int := 0x1_0000_0000_0000_0000

  /** A 64-bit integer keeps a result only modulo 2^64. */
  function Wrap64(n: int): int {
    (n + TWO_63) % TWO_64 - TWO_63
  }

  /** The age is turned into a duration by a 64-bit multiplication. */
  function Cutoff(now: int, hours: nat): int {
    now + Wrap64(-(hours as int) * HOUR)
  }

  const LONGEST_AGE := 2_562_047

  lemma WrapIsExact(n: int)
    ensures -TWO_63 <= Wrap64(n) < TWO_63
    ensures -TWO_63 <= n < TWO_63 ==> Wrap64(n) == n
  {
  }

  /** The cutoff lies as far back as the policy asks exactly if the age fits a duration, some 292 years. */
  lemma CutoffIsOldEnoughExactly(now: int, hours: nat)
    ensures Cutoff(now, hours) <= now - hours * HOUR <==> hours <= LONGEST_AGE
  {
    WrapIsExact(-(hours as int) * HOUR);
    if hours <= LONGEST_AGE {
      assert hours * HOUR <= LONGEST_AGE * HOUR < TWO_63;
    } else {
      assert hours * HOUR >= (LONGEST_AGE + 1) * HOUR > TWO_63;
    }
  }

  // ---- The plan ----

  datatype Plan = Plan(healthy: bool, withinLimits: bool, candidates: seq<Record>, deleteBytes: nat)

  function Total(records: seq<Record>): nat {
    if records == [] then 0 else Total(records[..|records| - 1]) + records[|records| - 1].size
  }

  /** A record that the plan may delete: old enough, sound, and with enough newer ones to keep. */
  ghost predicate Expendable(records: seq<Record>, files: Files, p: Policy, now: int, r: Record) {
    r in records && |NewerThan(records, r)| >= p.keepLatest && r.created <= Cutoff(now, p.minimumAgeHours)
        && Healthy(files, r)
  }

  /** The candidates are exactly the expendable records, newest first, each once. */
  ghost predicate Selects(records: seq<Record>, files: Files, p: Policy, now: int, candidates: seq<Record>) {
    && (forall r :: r in candidates <==> Expendable(records, files, p, now, r))
    && DistinctKeys(IdOf, candidates) && Ordered(Newer, candidates)
  }

  method Evaluate(records: seq<Record>, files: Files, p: Policy, now: int) returns (plan: Plan)
    requires DistinctKeys(IdOf, records)
    ensures plan.healthy <==> forall r :: r in records ==> Healthy(files, r)
    ensures Selects(records, files, p, now, plan.candidates)
    ensures plan.deleteBytes == Total(plan.candidates)
    ensures plan.withinLimits <==> p.maximumDeleteBytes == 0 || plan.deleteBytes <= p.maximumDeleteBytes
  {
    hide Healthy, Newer, NewestFirst, Cutoff;
    var healthy := true;
    var k := 0;
    while k < |records|
      invariant 0 <= k <= |records|
      invariant healthy <==> forall j :: 0 <= j < k ==> Healthy(files, records[j])
    {
      if !Healthy(files, records[k]) { healthy := false; }
      k := k + 1;
    }
    var sorted := NewestFirst(records);
    SortedCatalog(records);
    var cutoff := Cutoff(now, p.minimumAgeHours);
    var candidates: seq<Record> := [];
    var bytes := 0;
    var i := 0;
    while i < |sorted|
      invariant 0 <= i <= |sorted|
      invariant forall r :: r in candidates <==> exists j :: 0 <= j < i && sorted[j] == r && Chosen(files, p, cutoff, j, r)
      invariant FromBefore(sorted, i, candidates)
      invariant bytes == Total(candidates)
    {
      var item := sorted[i];
      if !(i < p.keepLatest || item.created > cutoff) && Healthy(files, item) {
        KeepsOrder(sorted, i, candidates);
        TotalOneMore(candidates, item);
        candidates := candidates + [item];
        bytes := bytes + item.size;
      }
      i := i + 1;
    }
    ChosenAreExpendable(records, files, p, now, candidates);
    plan := Plan(healthy, p.maximumDeleteBytes == 0 || bytes <= p.maximumDeleteBytes, candidates, bytes);
  }

  predicate Chosen(files: Files, p: Policy, cutoff: int, i: nat, r: Record) {
    i >= p.keepLatest && r.created <= cutoff && Healthy(files, r)
  }

  /** The list is made of records before position i, in their order. */
  ghost predicate FromBefore(sorted: seq<Record>, i: nat, list: seq<Record>)
    requires i <= |sorted|
  {
    && (forall r :: r in list ==> r in sorted[..i])
    && DistinctKeys(IdOf, list) && Ordered(Newer, list)
  }

  lemma KeepsOrder(sorted: seq<Record>, i: nat, list: seq<Record>)
    requires Ordered(Newer, sorted) && DistinctKeys(IdOf, sorted) && i < |sorted| && FromBefore(sorted, i, list)
    ensures FromBefore(sorted, i + 1, list + [sorted[i]])
    ensures FromBefore(sorted, i + 1, list)
  {
    hide Newer;
    assert sorted[..i + 1] == sorted[..i] + [sorted[i]];
    var longer := list + [sorted[i]];
    forall k | 0 <= k < |list| ensures !Newer(sorted[i], list[k]) && IdOf(list[k]) != IdOf(sorted[i]) {
      assert list[k] in sorted[..i];
      var j :| 0 <= j < i && sorted[j] == list[k];
      assert IdOf(sorted[j]) != IdOf(sorted[i]);
    }
  }

  lemma TotalOneMore(list: seq<Record>, r: Record)
    ensures Total(list + [r]) == Total(list) + r.size
  {
    assert (list + [r])[..|list|] == list;
  }

  lemma ChosenAreExpendable(records: seq<Record>, files: Files, p: Policy, now: int, candidates: seq<Record>)
    requires DistinctKeys(IdOf, records)
    requires var sorted := NewestFirst(records);
             forall r :: r in candidates
                 <==> exists j :: 0 <= j < |sorted| && sorted[j] == r && Chosen(files, p, Cutoff(now, p.minimumAgeHours), j, r)
    ensures forall r :: r in candidates <==> Expendable(records, files, p, now, r)
  {
    hide Newer, NewestFirst, Cutoff, Healthy, NewerThan;
    SortedCatalog(records);
    var sorted := NewestFirst(records);
    forall j | 0 <= j < |sorted|
      ensures Expendable(records, files, p, now, sorted[j])
          <==> Chosen(files, p, Cutoff(now, p.minimumAgeHours), j, sorted[j])
    {
      PositionCounts(records, j);
      assert sorted[j] in sorted;
    }
    forall r | r in records ensures exists j :: 0 <= j < |sorted| && sorted[j] == r {
      assert r in sorted;
    }
  }

  /** Whatever a plan selects, the newest records of the number to keep are not in it. */
  lemma NewestAreKept(records: seq<Record>, files: Files, p: Policy, now: int, candidates: seq<Record>, r: Record)
    requires Selects(records, files, p, now, candidates) && |NewerThan(records, r)| < p.keepLatest
    ensures r !in candidates
  {
  }

  /** Nor, if the age fits a duration, one that is younger than the policy asks. */
  lemma YoungAreKept(records: seq<Record>, files: Files, p: Policy, now: int, candidates: seq<Record>, r: Record)
    requires Selects(records, files, p, now, candidates) && p.minimumAgeHours <= 2_562_047
    requires r.created > now - p.minimumAgeHours * 3_600_000_000_000
    ensures r !in candidates
  {
    hide NewerThan, Healthy, Cutoff;
    CutoffIsOldEnoughExactly(now, p.minimumAgeHours);
  }

  /** If it does not fit, there is a catalog of which every plan selects a record that is too young. */
  lemma LongAgesFail(now: int, hours: nat, candidates: seq<Record>)
    requires hours > LONGEST_AGE
    ensures var r := Record("a", "/a", "d", 1, if Cutoff(now, hours) < now then Cutoff(now, hours) else now);
            && now - hours * HOUR < r.created <= now
            && (Selects([r], map["/a" := File("d", 1, true)], Policy(true, 0, hours, 0), now, candidates)
                ==> candidates == [r])
  {
    hide Cutoff;
    CutoffIsOldEnoughExactly(now, hours);
    var r := Record("a", "/a", "d", 1, if Cutoff(now, hours) < now then Cutoff(now, hours) else now);
    var files := map["/a" := File("d", 1, true)];
    var p := Policy(true, 0, hours, 0);
    assert Expendable([r], files, p, now, r);
    if Selects([r], files, p, now, candidates) {
      assert r in candidates;
      forall i | 0 <= i < |candidates| ensures candidates[i] == r { assert candidates[i] in candidates; }
      CountElements(candidates);
      assert (set x | x in candidates) == {r};
    }
  }

  // ---- Applying a plan ----

  /** How the steps of one deletion go: the removal of the file, of the record, and the retention row. */
  datatype Fates = Fates(remove: bool, record: Fate, retention: bool)

  function Ids(records: seq<Record>): set<string> {
    set i | 0 <= i < |records| :: records[i].id
  }

  function Paths(records: seq<Record>): set<string> {
    set i | 0 <= i < |records| :: records[i].path
  }

  /**
   * What an application that counted the first deleted candidates leaves. It tried them and, if it
   * failed, perhaps the next one; outside the candidates it tried nothing has changed.
   */
  ghost predicate Applied(candidates: seq<Record>, deleted: nat, ok: bool,
      records: map<string, Record>, files: Files, records': map<string, Record>, files': Files)
  {
    && deleted <= |candidates|
    && records'.Keys !! Ids(candidates[..deleted]) && files'.Keys !! Paths(candidates[..deleted])
    && records'.Keys <= records.Keys && files'.Keys <= files.Keys
    && exists tried :: deleted <= tried <= |candidates| && tried <= deleted + 1 && (ok ==> tried == deleted)
         && records - Ids(candidates[..tried]) == records' - Ids(candidates[..tried])
         && files - Paths(candidates[..tried]) == files' - Paths(candidates[..tried])
  }

  /** The deletion of a candidate goes through: its file is as it was planned, and no step fails. */
  predicate GoesThrough(c: Record, f: Fates, records: map<string, Record>, files: Files) {
    && FileGoes(c, f, files) && RecordGoes(c, f, records) && f.record.Acknowledged? && f.retention
  }

  /** The candidate loses its file. */
  predicate FileGoes(c: Record, f: Fates, files: Files) {
    && c.path in files && files[c.path].sha == c.sha && files[c.path].size == c.size && files[c.path].sound
    && f.remove
  }

  /** If the file went, the candidate loses its record. */
  predicate RecordGoes(c: Record, f: Fates, records: map<string, Record>) {
    c.id in records && records[c.id].sha == c.sha && !f.record.NotMade?
  }

  /** The first n candidates are gone, each of which could go when it was reached. */
  ghost predicate WentThrough(candidates: seq<Record>, fates: seq<Fates>, n: nat, records: map<string, Record>,
      files: Files)
    requires n <= |candidates| == |fates|
  {
    forall k :: 0 <= k < n ==>
      GoesThrough(candidates[k], fates[k], records - Ids(candidates[..k]), files - Paths(candidates[..k]))
  }

  class Catalog {
    var records: map<string, Record>
    var files: Files

    constructor (r: map<string, Record>, f: Files)
      ensures records == r && files == f
    {
      records, files := r, f;
    }

    /** A record is deleted only with the digest it had when it was planned. */
    method DeleteRecord(r: Record, fate: Fate) returns (ok: bool)
      modifies this`records
      ensures var there := r.id in old(records) && old(records)[r.id].sha == r.sha;
              && ok == (there && fate.Acknowledged?)
              && records == if there && !fate.NotMade? then old(records) - {r.id} else old(records)
    {
      if r.id !in records || records[r.id].sha != r.sha || fate.NotMade? { return false; }
      records := records - {r.id};
      ok := fate.Acknowledged?;
    }

    /**
     * One candidate after the other; each is inspected again, its file removed, then its record, then
     * the removal is noted. It stops at the first failure: the candidate it failed at may have lost its
     * file and its record, and is not counted; the later ones have lost neither.
     */
    method Apply(plan: Plan, p: Policy, confirmed: bool, fates: seq<Fates>)
        returns (ok: bool, deleted: nat, bytesRemoved: nat)
      requires |fates| == |plan.candidates|
      modifies this
      ensures deleted <= |plan.candidates| && bytesRemoved == Total(plan.candidates[..deleted])
      ensures ok <==> deleted == |plan.candidates| && p.applyEnabled && plan.healthy && plan.withinLimits && confirmed
      ensures WentThrough(plan.candidates, fates, deleted, old(records), old(files))
      ensures p.applyEnabled && plan.healthy && plan.withinLimits && confirmed && deleted < |plan.candidates| ==>
                var c, f := plan.candidates[deleted], fates[deleted];
                var r0 := old(records) - Ids(plan.candidates[..deleted]);
                var f0 := old(files) - Paths(plan.candidates[..deleted]);
                && !GoesThrough(c, f, r0, f0)
                && files == (if FileGoes(c, f, f0) then f0 - {c.path} else f0)
                && records == (if FileGoes(c, f, f0) && RecordGoes(c, f, r0) then r0 - {c.id} else r0)
      ensures !(p.applyEnabled && plan.healthy && plan.withinLimits && confirmed) ==>
                !ok && deleted == 0 && records == old(records) && files == old(files)
      ensures Applied(plan.candidates, deleted, ok, old(records), old(files), records, files)
    {
      hide Total, Ids, Paths;
      var candidates := plan.candidates;
      bytesRemoved := 0;
      assert Total(candidates[..0]) == 0 by { NoTotal(candidates); }
      NothingTried(candidates, records, files);
      if !p.applyEnabled || !plan.healthy || !plan.withinLimits || !confirmed { return false, 0, 0; }
      deleted := 0;
      while deleted < |candidates|
        invariant 0 <= deleted <= |candidates|
        invariant bytesRemoved == Total(candidates[..deleted])
        invariant WentThrough(candidates, fates, deleted, old(records), old(files))
        invariant old(records) - Ids(candidates[..deleted]) == records
        invariant old(files) - Paths(candidates[..deleted]) == files
      {
        var c := candidates[deleted];
        OneMoreTried(candidates, deleted, old(records), old(files));
        TotalStep(candidates, deleted);
        if !Healthy(files, c) { return false, deleted, bytesRemoved; }
        if !fates[deleted].remove { return false, deleted, bytesRemoved; }
        files := files - {c.path};
        var gone := DeleteRecord(c, fates[deleted].record);
        if !gone { return false, deleted, bytesRemoved; }
        if !fates[deleted].retention { return false, deleted, bytesRemoved; }
        bytesRemoved := bytesRemoved + c.size;
        deleted := deleted + 1;
      }
      ok := true;
    }
  }

  lemma NoTotal(list: seq<Record>)
    ensures Total(list[..0]) == 0
  {
  }

  lemma TotalStep(list: seq<Record>, i: nat)
    requires i < |list|
    ensures Total(list[..i + 1]) == Total(list[..i]) + list[i].size
  {
    assert list[..i + 1][..i] == list[..i];
  }

  lemma NothingTried(list: seq<Record>, records: map<string, Record>, files: Files)
    ensures records - Ids(list[..0]) == records && files - Paths(list[..0]) == files
  {
  }

  lemma OneMoreTried(list: seq<Record>, i: nat, records: map<string, Record>, files: Files)
    requires i < |list|
    ensures Ids(list[..i + 1]) == Ids(list[..i]) + {list[i].id}
        && Paths(list[..i + 1]) == Paths(list[..i]) + {list[i].path}
    ensures records - Ids(list[..i]) - {list[i].id} == records - Ids(list[..i + 1])
    ensures files - Paths(list[..i]) - {list[i].path} == files - Paths(list[..i + 1])
    ensures records - Ids(list[..i]) - Ids(list[..i + 1]) == records - Ids(list[..i + 1])
    ensures files - Paths(list[..i]) - Paths(list[..i + 1]) == files - Paths(list[..i + 1])
  {
    hide Ids, Paths;
    IdsOneMore(list, i);
    PathsOneMore(list, i);
    WithoutOneMore(records, Ids(list[..i]), list[i].id);
    WithoutOneMore(files, Paths(list[..i]), list[i].path);
  }

  lemma IdsOneMore(list: seq<Record>, i: nat)
    requires i < |list|
    ensures Ids(list[..i + 1]) == Ids(list[..i]) + {list[i].id}
  {
    var longer, shorter := list[..i + 1], list[..i];
    forall k | 0 <= k < |longer| ensures longer[k].id in Ids(shorter) + {list[i].id} {
      if k < i { assert shorter[k] == list[k]; }
    }
    forall k | 0 <= k < |shorter| ensures shorter[k].id in Ids(longer) { assert longer[k] == list[k]; }
    assert longer[i] == list[i];
  }

  lemma PathsOneMore(list: seq<Record>, i: nat)
    requires i < |list|
    ensures Paths(list[..i + 1]) == Paths(list[..i]) + {list[i].path}
  {
    var longer, shorter := list[..i + 1], list[..i];
    forall k | 0 <= k < |longer| ensures longer[k].path in Paths(shorter) + {list[i].path} {
      if k < i { assert shorter[k] == list[k]; }
    }
    forall k | 0 <= k < |shorter| ensures shorter[k].path in Paths(longer) { assert longer[k] == list[k]; }
    assert longer[i] == list[i];
  }

  lemma WithoutOneMore<V>(m: map<string, V>, gone: set<string>, x: string)
    ensures m - gone - {x} == m - (gone + {x}) && m - gone - (gone + {x}) == m - (gone + {x})
  {
  }

  /** The catalog holds exactly these records, each under its identity. */
  ghost predicate Holds(catalog: map<string, Record>, records: seq<Record>) {
    && (forall r :: r in records ==> r.id in catalog && catalog[r.id] == r)
    && (forall id :: id in catalog ==> catalog[id] in records && catalog[id].id == id)
  }

  lemma PrefixWithin(list: seq<Record>, n: nat)
    requires n <= |list|
    ensures Ids(list[..n]) <= Ids(list) && Paths(list[..n]) <= Paths(list)
  {
    forall k | 0 <= k < n ensures list[..n][k].id in Ids(list) && list[..n][k].path in Paths(list) {
      assert list[..n][k] == list[k];
    }
  }

  /**
   * However far the application of a plan gets, a record that the plan does not select is still there,
   * and so is its file as it was, unless a candidate has the same path.
   */
  lemma KeptRecordsStay(records: seq<Record>, files: Files, p: Policy, now: int, candidates: seq<Record>, r: Record,
      deleted: nat, ok: bool, catalog: map<string, Record>, catalog': map<string, Record>, files': Files)
    requires DistinctKeys(IdOf, records) && Selects(records, files, p, now, candidates) && Holds(catalog, records)
    requires Applied(candidates, deleted, ok, catalog, files, catalog', files')
    requires r in records && r !in candidates
    ensures r.id in catalog' && catalog'[r.id] == r
    ensures r.path !in Paths(candidates) ==> (Healthy(files', r) <==> Healthy(files, r))
  {
    hide Selects, Ids, Paths, Healthy;
    var tried :| deleted <= tried <= |candidates|
        && catalog - Ids(candidates[..tried]) == catalog' - Ids(candidates[..tried])
        && files - Paths(candidates[..tried]) == files' - Paths(candidates[..tried]);
    PrefixWithin(candidates, tried);
    IdStays(records, candidates, r, files, p, now);
    assert r.id in catalog - Ids(candidates[..tried]);
    if r.path !in Paths(candidates) {
      SameFile(files, files', Paths(candidates[..tried]), r);
    }
  }

  lemma SameFile(files: Files, files': Files, gone: set<string>, r: Record)
    requires files - gone == files' - gone && r.path !in gone
    ensures Healthy(files', r) <==> Healthy(files, r)
  {
    assert r.path in files <==> r.path in files - gone;
    assert r.path in files' <==> r.path in files' - gone;
    assert r.path in files - gone ==> files[r.path] == (files - gone)[r.path] && files'[r.path] == (files' - gone)[r.path];
  }

  /**
   * After a complete application a sound record that was kept is still sound exactly if no candidate
   * has its path. Nothing in the schema keeps two records from naming one file.
   */
  lemma KeptIsSoundExactly(records: seq<Record>, files: Files, p: Policy, now: int, candidates: seq<Record>, r: Record,
      catalog: map<string, Record>, catalog': map<string, Record>, files': Files)
    requires DistinctKeys(IdOf, records) && Selects(records, files, p, now, candidates) && Holds(catalog, records)
    requires Applied(candidates, |candidates|, true, catalog, files, catalog', files')
    requires r in records && r !in candidates && Healthy(files, r)
    ensures Healthy(files', r) <==> r.path !in Paths(candidates)
  {
    hide Selects, Holds, Ids, Paths;
    assert candidates[..|candidates|] == candidates;
    KeptRecordsStay(records, files, p, now, candidates, r, |candidates|, true, catalog, catalog', files');
  }

  /** One file under two records, of which only the older is old enough: the newer one loses its file. */
  lemma SharedFileIsLost(now: int)
    ensures var newer, older := Record("b", "/f", "d", 1, now), Record("a", "/f", "d", 1, now - 2 * HOUR);
            var files, p := map["/f" := File("d", 1, true)], Policy(true, 1, 1, 0);
            && (forall r :: r in [newer, older] ==> Healthy(files, r))
            && (forall candidates: seq<Record> :: Selects([newer, older], files, p, now, candidates) ==>
                  candidates == [older] && newer.path in Paths(candidates))
  {
    var newer, older := Record("b", "/f", "d", 1, now), Record("a", "/f", "d", 1, now - 2 * HOUR);
    var records := [newer, older];
    var files, p := map["/f" := File("d", 1, true)], Policy(true, 1, 1, 0);
    CutoffIsOldEnoughExactly(now, 1);
    WrapIsExact(-HOUR);
    assert Cutoff(now, 1) == now - HOUR;
    assert NewerThan(records, older) == {newer};
    assert Expendable(records, files, p, now, older) && !Expendable(records, files, p, now, newer);
    forall candidates: seq<Record> | Selects(records, files, p, now, candidates)
      ensures candidates == [older] && newer.path in Paths(candidates)
    {
      OnlyElement(candidates, older);
      assert candidates[0].path in Paths(candidates);
    }
  }

  lemma OnlyElement(list: seq<Record>, r: Record)
    requires DistinctKeys(IdOf, list) && forall x :: x in list <==> x == r
    ensures list == [r]
  {
    CountElements(list);
    assert (set x | x in list) == {r};
    assert list[0] in list;
  }

  /** However far the application of a plan gets, as many records remain as there are to keep. */
  lemma EnoughRemain(records: seq<Record>, files: Files, p: Policy, now: int, candidates: seq<Record>,
      deleted: nat, ok: bool, catalog: map<string, Record>, catalog': map<string, Record>, files': Files)
    requires DistinctKeys(IdOf, records) && Selects(records, files, p, now, candidates) && Holds(catalog, records)
    requires Applied(candidates, deleted, ok, catalog, files, catalog', files')
    ensures |catalog'| >= if |records| < p.keepLatest then |records| else p.keepLatest
  {
    hide Healthy, Cutoff, NewestFirst, NewerThan, Applied, Holds;
    SortedCatalog(records);
    var sorted := NewestFirst(records);
    var n := if |records| < p.keepLatest then |records| else p.keepLatest;
    var kept := sorted[..n];
    forall i | 0 <= i < n ensures kept[i].id in catalog'.Keys {
      assert sorted[i] in records;
      PositionCounts(records, i);
      NewestAreKept(records, files, p, now, candidates, sorted[i]);
      KeptRecordsStay(records, files, p, now, candidates, sorted[i], deleted, ok, catalog, catalog', files');
    }
    CountKeys(IdOf, kept);
    forall id | id in Keys(IdOf, kept) ensures id in catalog'.Keys {
      var r :| r in kept && IdOf(r) == id;
    }
    Subset(Keys(IdOf, kept), catalog'.Keys);
  }

  lemma IdStays(records: seq<Record>, candidates: seq<Record>, r: Record, files: Files, p: Policy, now: int)
    requires DistinctKeys(IdOf, records) && Selects(records, files, p, now, candidates) && r in records
        && r !in candidates
    ensures r.id in Ids(records) - Ids(candidates)
  {
    hide Healthy, Cutoff, NewerThan;
    var k :| 0 <= k < |records| && records[k] == r;
    forall i | 0 <= i < |candidates| ensures candidates[i].id != r.id {
      assert candidates[i] in candidates;
      var j :| 0 <= j < |records| && records[j] == candidates[i];
      assert j < k ==> IdOf(records[j]) != IdOf(records[k]);
      assert k < j ==> IdOf(records[k]) != IdOf(records[j]);
    }
  }

  lemma {:induction false} Subset(a: set<string>, b: set<string>)
    requires a <= b
    ensures |a| <= |b|
  {
    if x :| x in a {
      Subset(a - {x}, b - {x});
    }
  }
}
