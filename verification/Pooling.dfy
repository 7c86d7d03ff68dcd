/** Identity-aware pooling of a campaign's phase rows: copies collapse only when proven, and every
    drop is on record. */
module Pooling {
  import opened Lists
  import opened Text

  /** A normalized phase row: the eight observation-identity fields, and the measured rest. */
  datatype Phase = Phase(
    startedAt: string, endedAt: string, sessionId: string, commitHash: string, tokens: map<string, int>,
    runId: string, runStartedAt: string, runEndedAt: string,
    phase: string, kind: string, status: string, model: string, error: string, cost: real, duration: real)

  /** `has_observable_identity` */
  predicate Observable(p: Phase) {
    p.startedAt != "" || p.endedAt != "" || p.sessionId != "" || p.commitHash != "" || p.tokens != map[]
    || p.runId != "" || p.runStartedAt != "" || p.runEndedAt != ""
  }

  datatype Corpus = Corpus(name: string, paths: seq<string>, phases: seq<Phase>)

  /** `DuplicatePhaseRow` */
  datatype Duplicate = Duplicate(identity: Phase, paths: seq<string>, occurrences: nat)

  /** One campaign being pooled: its rows, where each observable row was seen, and the duplicates. */
  datatype Pool = Pool(phases: seq<Phase>, sources: map<Phase, seq<string>>, duplicates: map<Phase, Duplicate>)

  const EMPTY_POOL := Pool([], map[], map[])

  /** A row as it is met: with the paths of the ledger it stands in. */
  datatype Sighting = Sighting(phase: Phase, paths: seq<string>)

  /** Appends the paths that are not listed yet. */
  function AddPaths(have: seq<string>, more: seq<string>): (r: seq<string>)
    ensures forall x :: x in r <==> x in have || x in more
    ensures have <= r
    decreases |more|
  {
    if more == [] then have
    else
      var n := |more| - 1;
      assert more == more[..n] + [more[n]];
      var front := AddPaths(have, more[..n]);
      if more[n] in front then front else front + [more[n]]
  }

  function See(pool: Pool, s: Sighting): Pool {
    var p := s.phase;
    if !Observable(p) then pool.(phases := pool.phases + [p])
    else if p !in pool.sources then
      pool.(phases := pool.phases + [p], sources := pool.sources[p := s.paths])
    else
      var entry := if p in pool.duplicates
                   then pool.duplicates[p].(occurrences := pool.duplicates[p].occurrences + 1)
                   else Duplicate(p, pool.sources[p], 2);
      pool.(duplicates := pool.duplicates[p := entry.(paths := AddPaths(entry.paths, s.paths))],
            sources := pool.sources[p := AddPaths(pool.sources[p], s.paths)])
  }

  function SeeAll(ss: seq<Sighting>): Pool
    decreases |ss|
  {
    if ss == [] then EMPTY_POOL else See(SeeAll(ss[..|ss| - 1]), ss[|ss| - 1])
  }

  /** The rows met, with multiplicity. */
  function Met(ss: seq<Sighting>): multiset<Phase>
    decreases |ss|
  {
    if ss == [] then multiset{} else Met(ss[..|ss| - 1]) + multiset{ss[|ss| - 1].phase}
  }

  ghost predicate SeenOn(ss: seq<Sighting>, p: Phase, path: string) {
    exists i :: 0 <= i < |ss| && ss[i].phase == p && path in ss[i].paths
  }

  /** The rows kept: identity-less rows as often as met, observable rows once. */
  ghost predicate RowsAccounted(pool: Pool, ss: seq<Sighting>) {
    forall p :: multiset(pool.phases)[p] ==
      if !Observable(p) then Met(ss)[p] else if Met(ss)[p] > 0 then 1 else 0
  }

  /** The observable rows met, with the paths of every ledger they stood in. */
  ghost predicate SourcesAccounted(pool: Pool, ss: seq<Sighting>) {
    && (forall p :: p in pool.sources <==> Observable(p) && Met(ss)[p] > 0)
    && (forall p, path :: p in pool.sources ==> (path in pool.sources[p] <==> SeenOn(ss, p, path)))
  }

  /** The rows met more than once, with how often and where. */
  ghost predicate DuplicatesAccounted(pool: Pool, ss: seq<Sighting>) {
    && (forall p :: p in pool.duplicates <==> Observable(p) && Met(ss)[p] > 1)
    && (forall p :: p in pool.duplicates ==>
          pool.duplicates[p].identity == p && pool.duplicates[p].occurrences == Met(ss)[p])
    && (forall p, path :: p in pool.duplicates ==> (path in pool.duplicates[p].paths <==> SeenOn(ss, p, path)))
  }

  ghost predicate Accounts(pool: Pool, ss: seq<Sighting>) {
    RowsAccounted(pool, ss) && SourcesAccounted(pool, ss) && DuplicatesAccounted(pool, ss)
  }

  lemma SeenOnOneMore(ss: seq<Sighting>, s: Sighting, p: Phase, path: string)
    ensures SeenOn(ss + [s], p, path) <==> SeenOn(ss, p, path) || (s.phase == p && path in s.paths)
  {
    var all := ss + [s];
    if SeenOn(ss, p, path) {
      var i :| 0 <= i < |ss| && ss[i].phase == p && path in ss[i].paths;
      assert all[i] == ss[i];
    }
    if s.phase == p && path in s.paths { assert all[|ss|] == s; }
  }

  lemma {:induction false} MetNothingSeenNowhere(ss: seq<Sighting>, p: Phase, path: string)
    requires Met(ss)[p] == 0
    ensures !SeenOn(ss, p, path)
    decreases |ss|
  {
    if ss != [] {
      var n := |ss| - 1;
      MetNothingSeenNowhere(ss[..n], p, path);
      SeenOnOneMore(ss[..n], ss[n], p, path);
      assert ss == ss[..n] + [ss[n]];
    }
  }

  lemma MetOneMore(ss: seq<Sighting>, s: Sighting)
    ensures Met(ss + [s]) == Met(ss) + multiset{s.phase}
  {
    assert (ss + [s])[..|ss + [s]| - 1] == ss;
  }

  lemma SeeKeepsRows(pool: Pool, ss: seq<Sighting>, s: Sighting)
    requires Accounts(pool, ss)
    ensures RowsAccounted(See(pool, s), ss + [s])
  {
    MetOneMore(ss, s);
  }

  lemma SeeKeepsSources(pool: Pool, ss: seq<Sighting>, s: Sighting)
    requires Accounts(pool, ss)
    ensures SourcesAccounted(See(pool, s), ss + [s])
  {
    MetOneMore(ss, s);
    var pool' := See(pool, s);
    forall p, path | p in pool'.sources
      ensures path in pool'.sources[p] <==> SeenOn(ss + [s], p, path)
    {
      SeenOnOneMore(ss, s, p, path);
      if p !in pool.sources { MetNothingSeenNowhere(ss, p, path); }
    }
  }

  lemma SeeCountsDuplicates(pool: Pool, ss: seq<Sighting>, s: Sighting)
    requires Accounts(pool, ss)
    ensures var pool' := See(pool, s);
            && (forall p :: p in pool'.duplicates <==> Observable(p) && Met(ss + [s])[p] > 1)
            && (forall p :: p in pool'.duplicates ==>
                  pool'.duplicates[p].identity == p && pool'.duplicates[p].occurrences == Met(ss + [s])[p])
  {
    MetOneMore(ss, s);
  }

  lemma SeeKeepsDuplicates(pool: Pool, ss: seq<Sighting>, s: Sighting)
    requires Accounts(pool, ss)
    ensures DuplicatesAccounted(See(pool, s), ss + [s])
  {
    SeeCountsDuplicates(pool, ss, s);
    var pool' := See(pool, s);
    forall p, path | p in pool'.duplicates
      ensures path in pool'.duplicates[p].paths <==> SeenOn(ss + [s], p, path)
    {
      SeenOnOneMore(ss, s, p, path);
    }
  }

  lemma SeeAccounts(pool: Pool, ss: seq<Sighting>, s: Sighting)
    requires Accounts(pool, ss)
    ensures Accounts(See(pool, s), ss + [s])
  {
    SeeKeepsRows(pool, ss, s);
    SeeKeepsSources(pool, ss, s);
    SeeKeepsDuplicates(pool, ss, s);
  }

  /** In every pooling: identity-less rows all survive, observable rows are kept once, and a row has
      a duplicate entry exactly when it was met again, with the number of times it was met and the
      paths of all ledgers it stood in. */
  lemma {:induction false} PoolingAccountsForEveryRow(ss: seq<Sighting>)
    ensures Accounts(SeeAll(ss), ss)
    decreases |ss|
  {
    if ss != [] {
      var n := |ss| - 1;
      PoolingAccountsForEveryRow(ss[..n]);
      SeeAccounts(SeeAll(ss[..n]), ss[..n], ss[n]);
      assert ss == ss[..n] + [ss[n]];
    }
  }

  /** A row with nothing in any of its eight identity fields is kept as often as it was met, whatever else
      it holds, and is never recorded as a duplicate. */
  lemma IdentityLessRowsAllStay(ss: seq<Sighting>, p: Phase)
    requires p.startedAt == "" && p.endedAt == "" && p.sessionId == "" && p.commitHash == "" && p.tokens == map[]
    requires p.runId == "" && p.runStartedAt == "" && p.runEndedAt == ""
    ensures multiset(SeeAll(ss).phases)[p] == Met(ss)[p] && p !in SeeAll(ss).duplicates
  {
    PoolingAccountsForEveryRow(ss);
  }

  /** A row with any one of the eight is kept once, and recorded when it was met again, with how often. */
  lemma RowsWithAnIdentityAreKeptOnce(ss: seq<Sighting>, p: Phase)
    requires || p.startedAt != "" || p.endedAt != "" || p.sessionId != "" || p.commitHash != "" || p.tokens != map[]
             || p.runId != "" || p.runStartedAt != "" || p.runEndedAt != ""
    ensures multiset(SeeAll(ss).phases)[p] == if Met(ss)[p] > 0 then 1 else 0
    ensures p in SeeAll(ss).duplicates <==> Met(ss)[p] > 1
    ensures p in SeeAll(ss).duplicates ==> SeeAll(ss).duplicates[p].occurrences == Met(ss)[p]
  {
    PoolingAccountsForEveryRow(ss);
  }

  /** Rows are kept in the order they are met; a row is passed over exactly when it has an identity and was
      met before. */
  lemma RowsStayInOrder(ss: seq<Sighting>, s: Sighting)
    ensures SeeAll(ss + [s]).phases ==
            SeeAll(ss).phases + if Observable(s.phase) && Met(ss)[s.phase] > 0 then [] else [s.phase]
  {
    PoolingAccountsForEveryRow(ss);
    SeeAllOneMore(ss, s);
    assert SeeAll(ss).phases + [] == SeeAll(ss).phases;
  }

  /** The copies a duplicate entry stands for. */
  function Dropped(pool: Pool, p: Phase): int {
    if p in pool.duplicates then pool.duplicates[p].occurrences - 1 else 0
  }

  /** Conservation: rows met are rows kept plus rows recorded as dropped. */
  lemma NothingIsLost(ss: seq<Sighting>, p: Phase)
    ensures Met(ss)[p] == multiset(SeeAll(ss).phases)[p] + Dropped(SeeAll(ss), p)
  {
    PoolingAccountsForEveryRow(ss);
  }

  // ---- ledgers ------------------------------------------------------------------------------

  function FromLedger(c: Corpus): seq<Sighting> {
    seq(|c.phases|, i requires 0 <= i < |c.phases| => Sighting(c.phases[i], c.paths))
  }

  /** The sightings of one campaign, ledger after ledger. */
  function Campaign(corpora: seq<Corpus>, name: string): seq<Sighting>
    decreases |corpora|
  {
    if corpora == [] then []
    else
      var last := corpora[|corpora| - 1];
      Campaign(corpora[..|corpora| - 1], name) + if last.name == name then FromLedger(last) else []
  }

  lemma MultisetsAssociate<T>(x: multiset<T>, y: multiset<T>, z: multiset<T>)
    ensures (x + y) + z == x + (y + z)
  {
  }

  lemma {:induction false} MetConcat(a: seq<Sighting>, b: seq<Sighting>)
    ensures Met(a + b) == Met(a) + Met(b)
    decreases |b|
  {
    if b == [] {
      assert a + b == a;
    } else {
      var front, last := b[..|b| - 1], b[|b| - 1];
      var one := multiset{last.phase};
      assert front + [last] == b && (a + front) + [last] == a + b;
      calc {
        Met((a + front) + [last]);
        { MetOneMore(a + front, last); }
        Met(a + front) + one;
        { MetConcat(a, front); }
        (Met(a) + Met(front)) + one;
        { MultisetsAssociate(Met(a), Met(front), one); }
        Met(a) + (Met(front) + one);
        { MetOneMore(front, last); }
        Met(a) + Met(front + [last]);
      }
    }
  }

  /** The rows a ledger contributes to a campaign. */
  function Contribution(c: Corpus, name: string): multiset<Phase> {
    if c.name == name then Met(FromLedger(c)) else multiset{}
  }

  lemma CampaignGrows(corpora: seq<Corpus>, c: Corpus, name: string)
    ensures Campaign(corpora + [c], name) == Campaign(corpora, name) + if c.name == name then FromLedger(c) else []
  {
    assert (corpora + [c])[..|corpora + [c]| - 1] == corpora;
  }

  lemma CampaignOneMore(corpora: seq<Corpus>, c: Corpus, name: string)
    ensures Met(Campaign(corpora + [c], name)) == Met(Campaign(corpora, name)) + Contribution(c, name)
  {
    CampaignGrows(corpora, c, name);
    MetConcat(Campaign(corpora, name), if c.name == name then FromLedger(c) else []);
  }

  /** A list without its element at `i`. */
  function Without<T>(s: seq<T>, i: nat): seq<T>
    requires i < |s|
  {
    s[..i] + s[i + 1..]
  }

  lemma WithoutGrows<T>(s: seq<T>, x: T, i: nat)
    requires i <= |s|
    ensures Without(s + [x], i) == if i == |s| then s else Without(s, i) + [x]
  {
  }

  lemma WithoutMultiset<T>(s: seq<T>, i: nat)
    requires i < |s|
    ensures multiset(s) == multiset(Without(s, i)) + multiset{s[i]}
  {
    assert s == s[..i] + [s[i]] + s[i + 1..];
  }

  lemma {:induction false} CampaignWithout(corpora: seq<Corpus>, i: nat, name: string)
    requires i < |corpora|
    ensures Met(Campaign(corpora, name)) == Met(Campaign(Without(corpora, i), name)) + Contribution(corpora[i], name)
    decreases |corpora|
  {
    var n := |corpora| - 1;
    var front, last := corpora[..n], corpora[n];
    assert corpora == front + [last];
    CampaignOneMore(front, last, name);
    WithoutGrows(front, last, i);
    if i < n {
      CampaignWithout(front, i, name);
      CampaignOneMore(Without(front, i), last, name);
    }
  }

  lemma {:induction false} PermutedLedgersMeetTheSameRows(a: seq<Corpus>, b: seq<Corpus>, name: string)
    requires multiset(a) == multiset(b)
    ensures Met(Campaign(a, name)) == Met(Campaign(b, name))
    decreases |a|
  {
    if a == [] {
      assert |multiset(b)| == 0;
    } else {
      var n := |a| - 1;
      assert a == a[..n] + [a[n]];
      assert a[n] in multiset(b);
      var i :| 0 <= i < |b| && b[i] == a[n];
      WithoutMultiset(b, i);
      assert multiset(a[..n]) == multiset(a) - multiset{a[n]};
      assert multiset(Without(b, i)) == multiset(b) - multiset{a[n]};
      PermutedLedgersMeetTheSameRows(a[..n], Without(b, i), name);
      CampaignWithout(b, i, name);
      CampaignOneMore(a[..n], a[n], name);
    }
  }

  /** A ledger of the campaign that holds the row and stands at the path. */
  ghost predicate Shows(c: Corpus, name: string, p: Phase, path: string) {
    c.name == name && p in c.phases && path in c.paths
  }

  lemma SeenInTwo(a: seq<Sighting>, b: seq<Sighting>, p: Phase, path: string)
    ensures SeenOn(a + b, p, path) <==> SeenOn(a, p, path) || SeenOn(b, p, path)
  {
    var all := a + b;
    if i :| 0 <= i < |a| && a[i].phase == p && path in a[i].paths { assert all[i] == a[i]; }
    if i :| 0 <= i < |b| && b[i].phase == p && path in b[i].paths { assert all[|a| + i] == b[i]; }
    if i :| 0 <= i < |all| && all[i].phase == p && path in all[i].paths {
      if i < |a| { assert a[i] == all[i]; } else { assert b[i - |a|] == all[i]; }
    }
  }

  lemma SeenInALedger(c: Corpus, p: Phase, path: string)
    ensures SeenOn(FromLedger(c), p, path) <==> p in c.phases && path in c.paths
  {
    var ss := FromLedger(c);
    forall i | 0 <= i < |ss| ensures ss[i].phase in c.phases && ss[i].paths == c.paths {
      assert ss[i].phase == c.phases[i];
    }
    if p in c.phases && path in c.paths {
      var i :| 0 <= i < |c.phases| && c.phases[i] == p;
      assert ss[i] == Sighting(p, c.paths);
    }
  }

  /** A row is seen at a path exactly when some ledger of the campaign shows it there. */
  lemma {:induction false} SeenInACampaign(corpora: seq<Corpus>, name: string, p: Phase, path: string)
    ensures SeenOn(Campaign(corpora, name), p, path) <==> exists c :: c in corpora && Shows(c, name, p, path)
    decreases |corpora|
  {
    if corpora != [] {
      var front, last := corpora[..|corpora| - 1], corpora[|corpora| - 1];
      assert corpora == front + [last];
      SeenInACampaign(front, name, p, path);
      CampaignGrows(front, last, name);
      SeenInTwo(Campaign(front, name), if last.name == name then FromLedger(last) else [], p, path);
      SeenInALedger(last, p, path);
      if c :| c in front && Shows(c, name, p, path) { assert c in corpora; }
      if c :| c in corpora && Shows(c, name, p, path) { assert c in front || c == last; }
      assert Shows(last, name, p, path) ==> last in corpora;
    }
  }

  lemma PermutedLedgersShowTheSamePaths(a: seq<Corpus>, b: seq<Corpus>, name: string, p: Phase, path: string)
    requires multiset(a) == multiset(b)
    ensures SeenOn(Campaign(a, name), p, path) <==> SeenOn(Campaign(b, name), p, path)
  {
    SeenInACampaign(a, name, p, path);
    SeenInACampaign(b, name, p, path);
    forall c ensures c in a <==> c in b { assert c in multiset(a) <==> c in multiset(b); }
  }

  lemma SameRowsSamePool(x: Pool, ss: seq<Sighting>, y: Pool, tt: seq<Sighting>)
    requires Accounts(x, ss) && Accounts(y, tt) && Met(ss) == Met(tt)
    requires forall p, path :: SeenOn(ss, p, path) <==> SeenOn(tt, p, path)
    ensures multiset(x.phases) == multiset(y.phases)
    ensures x.duplicates.Keys == y.duplicates.Keys
    ensures forall p :: p in x.duplicates ==> x.duplicates[p].occurrences == y.duplicates[p].occurrences
    ensures forall p, path :: p in x.duplicates ==> (path in x.duplicates[p].paths <==> path in y.duplicates[p].paths)
  {
    forall p ensures multiset(x.phases)[p] == multiset(y.phases)[p] {}
    forall p ensures p in x.duplicates <==> p in y.duplicates {}
  }

  /** The order of the ledgers changes neither which rows a campaign keeps, nor how often, nor which
      duplicates it records, with which counts and from which ledgers' paths. */
  lemma PoolingIgnoresLedgerOrder(a: seq<Corpus>, b: seq<Corpus>, name: string)
    requires multiset(a) == multiset(b)
    ensures var x, y := SeeAll(Campaign(a, name)), SeeAll(Campaign(b, name));
            && multiset(x.phases) == multiset(y.phases)
            && x.duplicates.Keys == y.duplicates.Keys
            && (forall p :: p in x.duplicates ==> x.duplicates[p].occurrences == y.duplicates[p].occurrences)
            && (forall p, path :: p in x.duplicates ==> (path in x.duplicates[p].paths <==> path in y.duplicates[p].paths))
  {
    PermutedLedgersMeetTheSameRows(a, b, name);
    var ss, tt := Campaign(a, name), Campaign(b, name);
    forall p, path ensures SeenOn(ss, p, path) <==> SeenOn(tt, p, path) { PermutedLedgersShowTheSamePaths(a, b, name, p, path); }
    PoolingAccountsForEveryRow(ss);
    PoolingAccountsForEveryRow(tt);
    SameRowsSamePool(SeeAll(ss), ss, SeeAll(tt), tt);
  }

  // ---- merge_corpora --------------------------------------------------------------------------

  function NameOf(c: Corpus): string { c.name }

  /** The campaigns in order of first appearance. */
  function Names(corpora: seq<Corpus>): seq<string> { FirstKeys(NameOf, corpora) }

  lemma SeeAllOneMore(ss: seq<Sighting>, s: Sighting)
    ensures SeeAll(ss + [s]) == See(SeeAll(ss), s)
  {
    assert (ss + [s])[..|ss + [s]| - 1] == ss;
  }

  /** One row of one ledger: kept, or recorded as a duplicate with its provenance. */
  method PoolRow(pool: Pool, row: Phase, paths: seq<string>) returns (pool': Pool)
    ensures pool' == See(pool, Sighting(row, paths))
  {
    if !Observable(row) { return pool.(phases := pool.phases + [row]); }
    if row !in pool.sources {
      return pool.(phases := pool.phases + [row], sources := pool.sources[row := paths]);
    }
    var entry := Duplicate(row, pool.sources[row], 2);
    if row in pool.duplicates {
      entry := pool.duplicates[row].(occurrences := pool.duplicates[row].occurrences + 1);
    }
    var listed, known := entry.paths, pool.sources[row];
    for l := 0 to |paths|
      invariant listed == AddPaths(entry.paths, paths[..l])
      invariant known == AddPaths(pool.sources[row], paths[..l])
    {
      assert paths[..l + 1][..l] == paths[..l];
      if paths[l] !in listed { listed := listed + [paths[l]]; }
      if paths[l] !in known { known := known + [paths[l]]; }
    }
    assert paths[..|paths|] == paths;
    pool' := pool.(duplicates := pool.duplicates[row := entry.(paths := listed)],
                   sources := pool.sources[row := known]);
  }

  /** The rows of one ledger. */
  method PoolLedger(pool: Pool, c: Corpus, ghost before: seq<Sighting>) returns (pool': Pool)
    requires pool == SeeAll(before)
    ensures pool' == SeeAll(before + FromLedger(c))
  {
    pool' := pool;
    assert before + FromLedger(c)[..0] == before;
    for j := 0 to |c.phases|
      invariant pool' == SeeAll(before + FromLedger(c)[..j])
    {
      var done := before + FromLedger(c)[..j];
      assert before + FromLedger(c)[..j + 1] == done + [Sighting(c.phases[j], c.paths)];
      SeeAllOneMore(done, Sighting(c.phases[j], c.paths));
      pool' := PoolRow(pool', c.phases[j], c.paths);
    }
    assert FromLedger(c)[..|c.phases|] == FromLedger(c);
  }

  /** Every campaign pooled so far. */
  ghost predicate PooledSoFar(byName: map<string, Pool>, corpora: seq<Corpus>) {
    forall name :: SeeAll(Campaign(corpora, name)) == if name in byName then byName[name] else EMPTY_POOL
  }

  lemma LedgerPooled(byName: map<string, Pool>, corpora: seq<Corpus>, c: Corpus, pool: Pool)
    requires PooledSoFar(byName, corpora)
    requires pool == SeeAll(Campaign(corpora, c.name) + FromLedger(c))
    ensures PooledSoFar(byName[c.name := pool], corpora + [c])
  {
    forall name ensures SeeAll(Campaign(corpora + [c], name))
                     == if name == c.name then pool else if name in byName then byName[name] else EMPTY_POOL
    {
      CampaignGrows(corpora, c, name);
      assert Campaign(corpora, name) + [] == Campaign(corpora, name);
    }
  }

  /** One ledger pooled into its campaign. */
  method PoolInto(byName: map<string, Pool>, c: Corpus, ghost before: seq<Corpus>) returns (byName': map<string, Pool>)
    requires PooledSoFar(byName, before)
    ensures byName'.Keys == byName.Keys + {c.name}
    ensures PooledSoFar(byName', before + [c])
  {
    var pool := if c.name in byName then byName[c.name] else EMPTY_POOL;
    pool := PoolLedger(pool, c, Campaign(before, c.name));
    LedgerPooled(byName, before, c, pool);
    byName' := byName[c.name := pool];
  }

  /** The campaigns of `corpora`, in order of first appearance, each pooled. */
  ghost predicate Merged(byName: map<string, Pool>, order: seq<string>, corpora: seq<Corpus>) {
    && order == Names(corpora)
    && (forall name :: name in byName <==> name in order)
    && PooledSoFar(byName, corpora)
  }

  lemma MergedNothing()
    ensures Merged(map[], [], [])
  {
  }

  /** The loop over ledgers. */
  method MergeCorpora(corpora: seq<Corpus>) returns (byName: map<string, Pool>, order: seq<string>)
    ensures Merged(byName, order, corpora)
  {
    byName, order := map[], [];
    MergedNothing();
    for k := 0 to |corpora|
      invariant Merged(byName, order, corpora[..k])
    {
      TakeOneMore(corpora, k);
      byName, order := MergeOne(byName, order, corpora[k], corpora[..k]);
    }
    assert corpora[..|corpora|] == corpora;
  }

  method MergeOne(byName: map<string, Pool>, order: seq<string>, c: Corpus, ghost before: seq<Corpus>)
    returns (byName': map<string, Pool>, order': seq<string>)
    requires Merged(byName, order, before)
    ensures Merged(byName', order', before + [c])
  {
    FirstKeysOneMore(NameOf, before, c);
    order' := if c.name in byName then order else order + [c.name];
    byName' := PoolInto(byName, c, before);
  }
}
