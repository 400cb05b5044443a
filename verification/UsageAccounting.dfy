/** The accountant of the gateway test: it records calls, and compares its tables with those a
    gateway reports. */
module UsageAccounting {
  import opened Options
  import opened UsageRecords

  // ----- what a satisfied comparison means

  function FindCategory(cs: seq<Category>, name: string): Option<Category> {
    if cs == [] then None else if cs[0].name == name then Some(cs[0]) else FindCategory(cs[1..], name)
  }

  function FindBucket(bs: seq<Bucket>, name: string): Option<Bucket> {
    if bs == [] then None else if bs[0].name == name then Some(bs[0]) else FindBucket(bs[1..], name)
  }

  function FindEntry(es: seq<Entry>, user: string): Option<Entry> {
    if es == [] then None else if es[0].user == user then Some(es[0]) else FindEntry(es[1..], user)
  }

  function FindSummary(ss: seq<Summary>, user: string): Option<Summary> {
    if ss == [] then None else if ss[0].user == user then Some(ss[0]) else FindSummary(ss[1..], user)
  }

  predicate CategoryCovered(x: Category, theirs: seq<Category>) {
    match FindCategory(theirs, x.name)
    case None => false
    case Some(x2) => Leq(x.counters, x2.counters)
  }

  predicate CategoriesCovered(mine: seq<Category>, theirs: seq<Category>) {
    forall x <- mine :: CategoryCovered(x, theirs)
  }

  predicate BucketCovered(b: Bucket, theirs: seq<Bucket>) {
    match FindBucket(theirs, b.name)
    case None => false
    case Some(b2) => CategoriesCovered(b.categories, b2.categories)
  }

  predicate BucketsCovered(mine: seq<Bucket>, theirs: seq<Bucket>) {
    forall b <- mine :: BucketCovered(b, theirs)
  }

  predicate EntryCovered(e: Entry, theirs: seq<Entry>) {
    match FindEntry(theirs, e.user)
    case None => false
    case Some(e2) => BucketsCovered(e.buckets, e2.buckets)
  }

  predicate SummaryCovered(s: Summary, theirs: seq<Summary>) {
    match FindSummary(theirs, s.user)
    case None => false
    case Some(s2) => CategoriesCovered(s.categories, s2.categories) && Leq(s.total, s2.total)
  }

  /** Every recorded count is matched by one at least as large. */
  predicate Covered(mine: Usage, theirs: Usage) {
    && (forall e <- mine.entries :: EntryCovered(e, theirs.entries))
    && (forall s <- mine.summary :: SummaryCovered(s, theirs.summary))
  }

  // ----- covering is reflexive and transitive

  lemma {:induction false} FoundCategory(cs: seq<Category>, name: string)
    ensures FindCategory(cs, name).Some? ==>
              FindCategory(cs, name).value in cs && FindCategory(cs, name).value.name == name
    ensures FindCategory(cs, name).None? <==> forall x <- cs :: x.name != name
  {
    if cs != [] {
      FoundCategory(cs[1..], name);
    }
  }

  lemma {:induction false} FoundBucket(bs: seq<Bucket>, name: string)
    ensures FindBucket(bs, name).Some? ==> FindBucket(bs, name).value in bs && FindBucket(bs, name).value.name == name
    ensures FindBucket(bs, name).None? <==> forall x <- bs :: x.name != name
  {
    if bs != [] {
      FoundBucket(bs[1..], name);
    }
  }

  lemma {:induction false} FoundEntry(es: seq<Entry>, user: string)
    ensures FindEntry(es, user).Some? ==> FindEntry(es, user).value in es && FindEntry(es, user).value.user == user
    ensures FindEntry(es, user).None? <==> forall x <- es :: x.user != user
  {
    if es != [] {
      FoundEntry(es[1..], user);
    }
  }

  lemma {:induction false} FoundSummary(ss: seq<Summary>, user: string)
    ensures FindSummary(ss, user).Some? ==>
              FindSummary(ss, user).value in ss && FindSummary(ss, user).value.user == user
    ensures FindSummary(ss, user).None? <==> forall x <- ss :: x.user != user
  {
    if ss != [] {
      FoundSummary(ss[1..], user);
    }
  }

  lemma CategoriesTransitive(a: seq<Category>, b: seq<Category>, c: seq<Category>)
    requires CategoriesCovered(a, b) && CategoriesCovered(b, c)
    ensures CategoriesCovered(a, c)
  {
    forall x <- a
      ensures CategoryCovered(x, c)
    {
      assert CategoryCovered(x, b);
      FoundCategory(b, x.name);
      assert CategoryCovered(FindCategory(b, x.name).value, c);
    }
  }

  lemma BucketsTransitive(a: seq<Bucket>, b: seq<Bucket>, c: seq<Bucket>)
    requires BucketsCovered(a, b) && BucketsCovered(b, c)
    ensures BucketsCovered(a, c)
  {
    forall x <- a
      ensures BucketCovered(x, c)
    {
      assert BucketCovered(x, b);
      FoundBucket(b, x.name);
      var y := FindBucket(b, x.name).value;
      assert BucketCovered(y, c);
      CategoriesTransitive(x.categories, y.categories, FindBucket(c, x.name).value.categories);
    }
  }

  lemma EntriesTransitive(a: seq<Entry>, b: seq<Entry>, c: seq<Entry>)
    requires (forall e <- a :: EntryCovered(e, b)) && (forall e <- b :: EntryCovered(e, c))
    ensures forall e <- a :: EntryCovered(e, c)
  {
    forall x <- a
      ensures EntryCovered(x, c)
    {
      assert EntryCovered(x, b);
      FoundEntry(b, x.user);
      var y := FindEntry(b, x.user).value;
      assert EntryCovered(y, c);
      BucketsTransitive(x.buckets, y.buckets, FindEntry(c, x.user).value.buckets);
    }
  }

  lemma SummaryTransitive(a: seq<Summary>, b: seq<Summary>, c: seq<Summary>)
    requires (forall s <- a :: SummaryCovered(s, b)) && (forall s <- b :: SummaryCovered(s, c))
    ensures forall s <- a :: SummaryCovered(s, c)
  {
    forall x <- a
      ensures SummaryCovered(x, c)
    {
      assert SummaryCovered(x, b);
      FoundSummary(b, x.user);
      var y := FindSummary(b, x.user).value;
      assert SummaryCovered(y, c);
      CategoriesTransitive(x.categories, y.categories, FindSummary(c, x.user).value.categories);
    }
  }

  lemma {:induction false} FindCategoryAt(cs: seq<Category>, k: nat)
    requires k < |cs| && forall j | 0 <= j < k :: cs[j].name != cs[k].name
    ensures FindCategory(cs, cs[k].name) == Some(cs[k])
  {
    if k > 0 {
      FindCategoryAt(cs[1..], k - 1);
    }
  }

  lemma {:induction false} FindBucketAt(bs: seq<Bucket>, k: nat)
    requires k < |bs| && forall j | 0 <= j < k :: bs[j].name != bs[k].name
    ensures FindBucket(bs, bs[k].name) == Some(bs[k])
  {
    if k > 0 {
      FindBucketAt(bs[1..], k - 1);
    }
  }

  lemma {:induction false} FindEntryAt(es: seq<Entry>, k: nat)
    requires k < |es| && forall j | 0 <= j < k :: es[j].user != es[k].user
    ensures FindEntry(es, es[k].user) == Some(es[k])
  {
    if k > 0 {
      FindEntryAt(es[1..], k - 1);
    }
  }

  lemma {:induction false} FindSummaryAt(ss: seq<Summary>, k: nat)
    requires k < |ss| && forall j | 0 <= j < k :: ss[j].user != ss[k].user
    ensures FindSummary(ss, ss[k].user) == Some(ss[k])
  {
    if k > 0 {
      FindSummaryAt(ss[1..], k - 1);
    }
  }

  lemma CategoriesReflexive(cs: seq<Category>)
    requires UniqueCategories(cs)
    ensures CategoriesCovered(cs, cs)
  {
    forall k | 0 <= k < |cs|
      ensures CategoryCovered(cs[k], cs)
    {
      FindCategoryAt(cs, k);
    }
  }

  lemma BucketsReflexive(bs: seq<Bucket>)
    requires UniqueBuckets(bs)
    ensures BucketsCovered(bs, bs)
  {
    forall k | 0 <= k < |bs|
      ensures BucketCovered(bs[k], bs)
    {
      FindBucketAt(bs, k);
      CategoriesReflexive(bs[k].categories);
    }
  }

  lemma CoveredReflexive(u: Usage)
    requires Unique(u)
    ensures Covered(u, u)
  {
    forall k | 0 <= k < |u.entries|
      ensures EntryCovered(u.entries[k], u.entries)
    {
      FindEntryAt(u.entries, k);
      BucketsReflexive(u.entries[k].buckets);
    }
    forall k | 0 <= k < |u.summary|
      ensures SummaryCovered(u.summary[k], u.summary)
    {
      FindSummaryAt(u.summary, k);
      CategoriesReflexive(u.summary[k].categories);
    }
  }

  // ----- covering, told by single counters

  function CountersOf(x: Option<Category>): Option<Counters> {
    match x
    case None => None
    case Some(c) => Some(c.counters)
  }

  /** What is counted in the first is counted in the second, and no less of it. */
  predicate CountedToo(mine: Option<Counters>, theirs: Option<Counters>) {
    mine.Some? ==>
      && theirs.Some?
      && mine.value.received <= theirs.value.received && mine.value.sent <= theirs.value.sent
      && mine.value.ops <= theirs.value.ops && mine.value.successful <= theirs.value.successful
  }

  predicate CategoryToo(mine: seq<Category>, theirs: seq<Category>, cat: string) {
    CountedToo(CountersOf(FindCategory(mine, cat)), CountersOf(FindCategory(theirs, cat)))
  }

  /** A bucket that is found in the first is found in the second, with all that is counted in it. */
  ghost predicate BucketToo(mine: seq<Bucket>, theirs: seq<Bucket>, bucket: string) {
    match FindBucket(mine, bucket)
    case None => true
    case Some(b) =>
      && FindBucket(theirs, bucket).Some?
      && forall cat :: CategoryToo(b.categories, FindBucket(theirs, bucket).value.categories, cat)
  }

  ghost predicate EntryToo(mine: seq<Entry>, theirs: seq<Entry>, user: string) {
    match FindEntry(mine, user)
    case None => true
    case Some(e) =>
      && FindEntry(theirs, user).Some?
      && forall bucket :: BucketToo(e.buckets, FindEntry(theirs, user).value.buckets, bucket)
  }

  ghost predicate SummaryToo(mine: seq<Summary>, theirs: seq<Summary>, user: string) {
    match FindSummary(mine, user)
    case None => true
    case Some(s) =>
      && FindSummary(theirs, user).Some?
      && CountedToo(Some(s.total), Some(FindSummary(theirs, user).value.total))
      && forall cat :: CategoryToo(s.categories, FindSummary(theirs, user).value.categories, cat)
  }

  lemma CategoriesCoveredIff(mine: seq<Category>, theirs: seq<Category>)
    requires UniqueCategories(mine)
    ensures CategoriesCovered(mine, theirs) <==> forall cat :: CategoryToo(mine, theirs, cat)
  {
    forall cat
      ensures CategoriesCovered(mine, theirs) ==> CategoryToo(mine, theirs, cat)
    {
      FoundCategory(mine, cat);
    }
    forall k | 0 <= k < |mine|
      ensures CategoryToo(mine, theirs, mine[k].name) ==> CategoryCovered(mine[k], theirs)
    {
      FindCategoryAt(mine, k);
    }
  }

  lemma BucketsCoveredIff(mine: seq<Bucket>, theirs: seq<Bucket>)
    requires UniqueBuckets(mine)
    ensures BucketsCovered(mine, theirs) <==> forall bucket :: BucketToo(mine, theirs, bucket)
  {
    forall k | 0 <= k < |mine|
      ensures FindBucket(mine, mine[k].name) == Some(mine[k])
      ensures BucketCovered(mine[k], theirs) <==> BucketToo(mine, theirs, mine[k].name)
    {
      FindBucketAt(mine, k);
      if FindBucket(theirs, mine[k].name).Some? {
        CategoriesCoveredIff(mine[k].categories, FindBucket(theirs, mine[k].name).value.categories);
      }
    }
    forall bucket
      ensures BucketsCovered(mine, theirs) ==> BucketToo(mine, theirs, bucket)
    {
      FoundBucket(mine, bucket);
    }
  }

  lemma EntriesCoveredIff(mine: seq<Entry>, theirs: seq<Entry>)
    requires UniqueEntries(mine)
    ensures (forall e <- mine :: EntryCovered(e, theirs)) <==> forall user :: EntryToo(mine, theirs, user)
  {
    forall k | 0 <= k < |mine|
      ensures FindEntry(mine, mine[k].user) == Some(mine[k])
      ensures EntryCovered(mine[k], theirs) <==> EntryToo(mine, theirs, mine[k].user)
    {
      FindEntryAt(mine, k);
      if FindEntry(theirs, mine[k].user).Some? {
        BucketsCoveredIff(mine[k].buckets, FindEntry(theirs, mine[k].user).value.buckets);
      }
    }
    forall user
      ensures (forall e <- mine :: EntryCovered(e, theirs)) ==> EntryToo(mine, theirs, user)
    {
      FoundEntry(mine, user);
    }
  }

  lemma SummariesCoveredIff(mine: seq<Summary>, theirs: seq<Summary>)
    requires UniqueSummary(mine)
    ensures (forall s <- mine :: SummaryCovered(s, theirs)) <==> forall user :: SummaryToo(mine, theirs, user)
  {
    forall k | 0 <= k < |mine|
      ensures FindSummary(mine, mine[k].user) == Some(mine[k])
      ensures SummaryCovered(mine[k], theirs) <==> SummaryToo(mine, theirs, mine[k].user)
    {
      FindSummaryAt(mine, k);
      if FindSummary(theirs, mine[k].user).Some? {
        CategoriesCoveredIff(mine[k].categories, FindSummary(theirs, mine[k].user).value.categories);
      }
    }
    forall user
      ensures (forall s <- mine :: SummaryCovered(s, theirs)) ==> SummaryToo(mine, theirs, user)
    {
      FoundSummary(mine, user);
    }
  }

  /** A report covers the tables of a run if and only if each user, bucket and category of them is
      found in it, in both tables, and no counter is smaller there. */
  lemma CoveredIff(calls: seq<Call>, theirs: Usage)
    ensures Covered(Run(calls), theirs) <==>
            && (forall user :: EntryToo(Run(calls).entries, theirs.entries, user))
            && (forall user :: SummaryToo(Run(calls).summary, theirs.summary, user))
  {
    RunUnique(calls);
    EntriesCoveredIff(Run(calls).entries, theirs.entries);
    SummariesCoveredIff(Run(calls).summary, theirs.summary);
  }

  // ----- recording only adds

  predicate Increasing(c: Call) {
    c.out >= 0 && c.bytesIn >= 0
  }

  lemma {:induction false} FindBumpedCategory(cs: seq<Category>, c: Call, owned: bool, name: string)
    requires Increasing(c) && FindCategory(cs, name).Some?
    ensures var x := FindCategory(BumpCategories(cs, c, owned), name);
            x.Some? && Leq(FindCategory(cs, name).value.counters, x.value.counters)
  {
    if cs[0].name != c.cat {
      assert BumpCategories(cs, c, owned)[1..] == BumpCategories(cs[1..], c, owned);
      if cs[0].name != name {
        FindBumpedCategory(cs[1..], c, owned, name);
      }
    }
  }

  lemma BumpCategoriesCovers(cs: seq<Category>, c: Call, owned: bool)
    requires UniqueCategories(cs) && Increasing(c)
    ensures CategoriesCovered(cs, BumpCategories(cs, c, owned))
  {
    forall k | 0 <= k < |cs|
      ensures CategoryCovered(cs[k], BumpCategories(cs, c, owned))
    {
      FindCategoryAt(cs, k);
      FindBumpedCategory(cs, c, owned, cs[k].name);
    }
  }

  lemma {:induction false} FindBumpedBucket(bs: seq<Bucket>, c: Call, name: string)
    ensures FindBucket(BumpBuckets(bs, c), name) ==
            if name != c.bucket then FindBucket(bs, name)
            else match FindBucket(bs, name)
                 case None => Some(Bucket(name, BumpCategories([], c, true)))
                 case Some(b) => Some(Bucket(name, BumpCategories(b.categories, c, true)))
  {
    if bs != [] && bs[0].name != c.bucket {
      assert BumpBuckets(bs, c)[1..] == BumpBuckets(bs[1..], c);
      FindBumpedBucket(bs[1..], c, name);
    }
  }

  lemma BumpBucketsCovers(bs: seq<Bucket>, c: Call)
    requires UniqueBuckets(bs) && Increasing(c)
    ensures BucketsCovered(bs, BumpBuckets(bs, c))
  {
    forall k | 0 <= k < |bs|
      ensures BucketCovered(bs[k], BumpBuckets(bs, c))
    {
      FindBucketAt(bs, k);
      FindBumpedBucket(bs, c, bs[k].name);
      BumpCategoriesCovers(bs[k].categories, c, true);
      CategoriesReflexive(bs[k].categories);
    }
  }

  lemma {:induction false} FindBumpedEntry(es: seq<Entry>, c: Call, user: string)
    ensures FindEntry(BumpEntries(es, c), user) ==
            if user != c.user then FindEntry(es, user)
            else match FindEntry(es, user)
                 case None => Some(Entry(user, BumpBuckets([], c)))
                 case Some(e) => Some(Entry(user, BumpBuckets(e.buckets, c)))
  {
    if es != [] && es[0].user != c.user {
      assert BumpEntries(es, c)[1..] == BumpEntries(es[1..], c);
      FindBumpedEntry(es[1..], c, user);
    }
  }

  lemma BumpEntriesCovers(es: seq<Entry>, c: Call)
    requires UniqueEntries(es) && Increasing(c)
    ensures forall e <- es :: EntryCovered(e, BumpEntries(es, c))
  {
    forall k | 0 <= k < |es|
      ensures EntryCovered(es[k], BumpEntries(es, c))
    {
      FindEntryAt(es, k);
      FindBumpedEntry(es, c, es[k].user);
      BumpBucketsCovers(es[k].buckets, c);
      BucketsReflexive(es[k].buckets);
    }
  }

  lemma {:induction false} FindBumpedSummary(ss: seq<Summary>, c: Call, user: string)
    ensures FindSummary(BumpSummary(ss, c), user) ==
            if user != c.user then FindSummary(ss, user)
            else match FindSummary(ss, user)
                 case None => Some(Summary(user, BumpCategories([], c, false), Plus(ZERO, Delta(c))))
                 case Some(s) => Some(Summary(user, BumpCategories(s.categories, c, false), Plus(s.total, Delta(c))))
  {
    if ss != [] && ss[0].user != c.user {
      assert BumpSummary(ss, c)[1..] == BumpSummary(ss[1..], c);
      FindBumpedSummary(ss[1..], c, user);
    }
  }

  lemma BumpSummaryCovers(ss: seq<Summary>, c: Call)
    requires UniqueSummary(ss) && Increasing(c)
    ensures forall s <- ss :: SummaryCovered(s, BumpSummary(ss, c))
  {
    forall k | 0 <= k < |ss|
      ensures SummaryCovered(ss[k], BumpSummary(ss, c))
    {
      FindSummaryAt(ss, k);
      FindBumpedSummary(ss, c, ss[k].user);
      BumpCategoriesCovers(ss[k].categories, c, false);
      CategoriesReflexive(ss[k].categories);
    }
  }

  /** No call so far was recorded for the user. */
  predicate NewUser(calls: seq<Call>, user: string) {
    forall k | 0 <= k < |calls| :: Ignored(calls[k]) || calls[k].user != user
  }

  lemma {:induction false} NewUserAbsent(calls: seq<Call>, user: string)
    ensures FindEntry(Run(calls).entries, user).None? <==> NewUser(calls, user)
    ensures FindSummary(Run(calls).summary, user).None? <==> NewUser(calls, user)
  {
    if calls != [] {
      var front, c := calls[..|calls| - 1], calls[|calls| - 1];
      NewUserAbsent(front, user);
      FindBumpedEntry(Run(front).entries, c, user);
      FindBumpedSummary(Run(front).summary, c, user);
      assert calls == front + [c];
    }
  }

  lemma NewEntryCovers(es: seq<Entry>, c: Call)
    requires UniqueEntries(es) && FindEntry(es, c.user).None?
    ensures forall e <- es :: EntryCovered(e, BumpEntries(es, c))
  {
    forall k | 0 <= k < |es|
      ensures EntryCovered(es[k], BumpEntries(es, c))
    {
      FindEntryAt(es, k);
      FindBumpedEntry(es, c, es[k].user);
      BucketsReflexive(es[k].buckets);
    }
  }

  lemma NewSummaryCovers(ss: seq<Summary>, c: Call)
    requires UniqueSummary(ss) && FindSummary(ss, c.user).None?
    ensures forall s <- ss :: SummaryCovered(s, BumpSummary(ss, c))
  {
    forall k | 0 <= k < |ss|
      ensures SummaryCovered(ss[k], BumpSummary(ss, c))
    {
      FindSummaryAt(ss, k);
      FindBumpedSummary(ss, c, ss[k].user);
      CategoriesReflexive(ss[k].categories);
    }
  }

  /** The call is not recorded, takes no count back, or is the first of its user. */
  predicate Growing(calls: seq<Call>, c: Call) {
    Ignored(c) || Increasing(c) || NewUser(calls, c.user)
  }

  lemma SummaryShrinks(ss: seq<Summary>, c: Call)
    requires FindSummary(ss, c.user).Some? && !Increasing(c)
    ensures exists s <- ss :: !SummaryCovered(s, BumpSummary(ss, c))
  {
    FoundSummary(ss, c.user);
    FindBumpedSummary(ss, c, c.user);
    assert !SummaryCovered(FindSummary(ss, c.user).value, BumpSummary(ss, c));
  }

  lemma NextCoversIff(calls: seq<Call>, c: Call)
    ensures Covered(Run(calls), Recorded(Run(calls), c)) <==> Growing(calls, c)
  {
    var u := Run(calls);
    RunUnique(calls);
    NewUserAbsent(calls, c.user);
    if Ignored(c) {
      CoveredReflexive(u);
    } else if Increasing(c) {
      BumpEntriesCovers(u.entries, c);
      BumpSummaryCovers(u.summary, c);
    } else if NewUser(calls, c.user) {
      NewEntryCovers(u.entries, c);
      NewSummaryCovers(u.summary, c);
    } else {
      SummaryShrinks(u.summary, c);
    }
  }

  lemma RunNext(calls: seq<Call>, k: nat)
    requires k < |calls|
    ensures Run(calls[..k + 1]) == Recorded(Run(calls[..k]), calls[k])
  {
    assert calls[..k + 1][..k] == calls[..k];
  }

  /** A later state covers an earlier one when the run grows between them. */
  lemma {:induction false} LaterCovers(calls: seq<Call>, j: nat, k: nat)
    requires j <= k <= |calls| && forall i | j <= i < k :: Growing(calls[..i], calls[i])
    ensures Covered(Run(calls[..j]), Run(calls[..k]))
    decreases k
  {
    if j == k {
      RunUnique(calls[..j]);
      CoveredReflexive(Run(calls[..j]));
    } else {
      LaterCovers(calls, j, k - 1);
      RunNext(calls, k - 1);
      NextCoversIff(calls[..k - 1], calls[k - 1]);
      var u, v, w := Run(calls[..j]), Run(calls[..k - 1]), Run(calls[..k]);
      EntriesTransitive(u.entries, v.entries, w.entries);
      SummaryTransitive(u.summary, v.summary, w.summary);
    }
  }

  ghost predicate CoveredBetween(calls: seq<Call>, j: nat, k: nat)
    requires j <= k <= |calls|
  {
    Covered(Run(calls[..j]), Run(calls[..k]))
  }

  /** Every state of a run covers every earlier one, if and only if every call grows the tables. */
  lemma LaterCoversIff(calls: seq<Call>)
    ensures (forall j: nat, k: nat | j <= k <= |calls| :: CoveredBetween(calls, j, k)) <==>
            (forall i | 0 <= i < |calls| :: Growing(calls[..i], calls[i]))
  {
    if forall i | 0 <= i < |calls| :: Growing(calls[..i], calls[i]) {
      forall j: nat, k: nat | j <= k <= |calls|
        ensures CoveredBetween(calls, j, k)
      {
        LaterCovers(calls, j, k);
      }
    } else {
      var i :| 0 <= i < |calls| && !Growing(calls[..i], calls[i]);
      NextCoversIff(calls[..i], calls[i]);
      RunNext(calls, i);
      assert !CoveredBetween(calls, i, i + 1);
    }
  }

  // ----- the comparison

  datatype Complaint =
    | MissingTables
    | MissingEntry(user: string)
    | MissingBucket(user: string, bucket: string)
    | BadField(category: string)
    | IncompleteCounts(category: string)

  /** A report may lack either table. */
  datatype Report = Report(entries: Option<seq<Entry>>, summary: Option<seq<Summary>>)

  /** The comparison crashes on a missing summary: its message names an unset variable. */
  datatype Outcome = Complaints(list: seq<Complaint>) | Crash

  method ValidateFields(x: Counters, x2: Option<Counters>, what: string) returns (r: seq<Complaint>)
    ensures r == if x2.None? then [BadField(what)] else if Leq(x, x2.value) then [] else [IncompleteCounts(what)]
  {
    if x2.None? {
      return [BadField(what)];
    }
    var fields := [Sent, Received, Ops, Successful];
    var q := 0;
    var k := 0;
    while k < |fields|
      invariant 0 <= k <= 4 && q >= 0
      invariant q == 0 <==> forall j | 0 <= j < k :: Get(x, fields[j]) <= Get(x2.value, fields[j])
    {
      if Get(x2.value, fields[k]) < Get(x, fields[k]) {
        q := q + 1;
      }
      k := k + 1;
    }
    LeqByFields(x, x2.value, fields);
    r := if q > 0 then [IncompleteCounts(what)] else [];
  }

  lemma LeqByFields(a: Counters, b: Counters, fields: seq<Field>)
    requires fields == [Sent, Received, Ops, Successful]
    ensures Leq(a, b) <==> forall j | 0 <= j < |fields| :: Get(a, fields[j]) <= Get(b, fields[j])
  {
    if forall j | 0 <= j < |fields| :: Get(a, fields[j]) <= Get(b, fields[j]) {
      assert Get(a, fields[0]) <= Get(b, fields[0]) && Get(a, fields[1]) <= Get(b, fields[1]);
      assert Get(a, fields[2]) <= Get(b, fields[2]) && Get(a, fields[3]) <= Get(b, fields[3]);
    }
  }

  /** The category warrants the complaint: it is missing, or some counter of it is smaller. */
  predicate Warrants(x: Category, theirs: seq<Category>, c: Complaint) {
    if FindCategory(theirs, x.name).None? then c == BadField(x.name)
    else c == IncompleteCounts(x.name) && !CategoryCovered(x, theirs)
  }

  method CompareCategories(mine: seq<Category>, theirs: seq<Category>) returns (r: seq<Complaint>)
    ensures r == [] <==> CategoriesCovered(mine, theirs)
    ensures forall c :: c in r <==> exists x <- mine :: Warrants(x, theirs, c)
  {
    r := [];
    var k := 0;
    while k < |mine|
      invariant 0 <= k <= |mine|
      invariant r == [] <==> forall j | 0 <= j < k :: CategoryCovered(mine[j], theirs)
      invariant forall c :: c in r <==> exists x <- mine[..k] :: Warrants(x, theirs, c)
    {
      assert mine[..k + 1] == mine[..k] + [mine[k]];
      var more := ValidateFields(mine[k].counters, CountersOf(FindCategory(theirs, mine[k].name)), mine[k].name);
      assert forall c :: c in more <==> Warrants(mine[k], theirs, c);
      forall c
        ensures c in r + more <==> exists x <- mine[..k + 1] :: Warrants(x, theirs, c)
      {
        assert c in r <==> exists x <- mine[..k] :: Warrants(x, theirs, c);
      }
      r := r + more;
      k := k + 1;
    }
    assert mine[..k] == mine;
  }

  method CompareBuckets(mine: seq<Bucket>, theirs: seq<Bucket>, user: string) returns (r: seq<Complaint>)
    ensures r == [] <==> BucketsCovered(mine, theirs)
    ensures forall u, w :: MissingBucket(u, w) in r <==>
                           u == user && exists b <- mine :: b.name == w && FindBucket(theirs, w).None?
    ensures forall c <- r :: !c.MissingEntry? && !c.MissingTables?
  {
    r := [];
    var k := 0;
    while k < |mine|
      invariant 0 <= k <= |mine|
      invariant r == [] <==> forall j | 0 <= j < k :: BucketCovered(mine[j], theirs)
      invariant forall u, w :: MissingBucket(u, w) in r <==>
                               u == user && exists b <- mine[..k] :: b.name == w && FindBucket(theirs, w).None?
      invariant forall c <- r :: !c.MissingEntry? && !c.MissingTables?
    {
      assert mine[..k + 1] == mine[..k] + [mine[k]];
      match FindBucket(theirs, mine[k].name) {
        case None =>
          r := r + [MissingBucket(user, mine[k].name)];
        case Some(b2) =>
          var more := CompareCategories(mine[k].categories, b2.categories);
          r := r + more;
      }
      k := k + 1;
    }
    assert mine[..k] == mine;
  }

  // ----- recording: find the record by a scan, append it if there is none, update it

  lemma {:induction false} BumpCategoriesAt(cs: seq<Category>, c: Call, owned: bool, k: nat)
    requires k <= |cs| && (forall j | 0 <= j < k :: cs[j].name != c.cat) && (k < |cs| ==> cs[k].name == c.cat)
    ensures var found := if k < |cs| then cs else cs + [Category(c.cat, ZERO, None)];
            BumpCategories(cs, c, owned) ==
            found[k := Category(c.cat, Plus(found[k].counters, Delta(c)),
                                if owned then Owner(c, found[k].owner) else found[k].owner)]
  {
    if k > 0 {
      BumpCategoriesAt(cs[1..], c, owned, k - 1);
    }
  }

  method AddToCategories(cs: seq<Category>, c: Call, owned: bool) returns (r: seq<Category>)
    ensures r == BumpCategories(cs, c, owned)
  {
    var k := 0;
    while k < |cs| && cs[k].name != c.cat
      invariant 0 <= k <= |cs| && forall j | 0 <= j < k :: cs[j].name != c.cat
    {
      k := k + 1;
    }
    BumpCategoriesAt(cs, c, owned, k);
    var found := if k < |cs| then cs else cs + [Category(c.cat, ZERO, None)];
    var x := found[k];
    r := found[k := Category(c.cat, Plus(x.counters, Delta(c)), if owned then Owner(c, x.owner) else x.owner)];
  }

  lemma {:induction false} BumpBucketsAt(bs: seq<Bucket>, c: Call, k: nat)
    requires k <= |bs| && (forall j | 0 <= j < k :: bs[j].name != c.bucket) && (k < |bs| ==> bs[k].name == c.bucket)
    ensures var found := if k < |bs| then bs else bs + [Bucket(c.bucket, [])];
            BumpBuckets(bs, c) == found[k := Bucket(c.bucket, BumpCategories(found[k].categories, c, true))]
  {
    if k > 0 {
      BumpBucketsAt(bs[1..], c, k - 1);
    }
  }

  method AddToBuckets(bs: seq<Bucket>, c: Call) returns (r: seq<Bucket>)
    ensures r == BumpBuckets(bs, c)
  {
    var k := 0;
    while k < |bs| && bs[k].name != c.bucket
      invariant 0 <= k <= |bs| && forall j | 0 <= j < k :: bs[j].name != c.bucket
    {
      k := k + 1;
    }
    BumpBucketsAt(bs, c, k);
    var found := if k < |bs| then bs else bs + [Bucket(c.bucket, [])];
    var categories := AddToCategories(found[k].categories, c, true);
    r := found[k := Bucket(c.bucket, categories)];
  }

  lemma {:induction false} BumpEntriesAt(es: seq<Entry>, c: Call, k: nat)
    requires k <= |es| && (forall j | 0 <= j < k :: es[j].user != c.user) && (k < |es| ==> es[k].user == c.user)
    ensures var found := if k < |es| then es else es + [Entry(c.user, [])];
            BumpEntries(es, c) == found[k := Entry(c.user, BumpBuckets(found[k].buckets, c))]
  {
    if k > 0 {
      BumpEntriesAt(es[1..], c, k - 1);
    }
  }

  method AddToEntries(es: seq<Entry>, c: Call) returns (r: seq<Entry>)
    ensures r == BumpEntries(es, c)
  {
    var k := 0;
    while k < |es| && es[k].user != c.user
      invariant 0 <= k <= |es| && forall j | 0 <= j < k :: es[j].user != c.user
    {
      k := k + 1;
    }
    BumpEntriesAt(es, c, k);
    var found := if k < |es| then es else es + [Entry(c.user, [])];
    var buckets := AddToBuckets(found[k].buckets, c);
    r := found[k := Entry(c.user, buckets)];
  }

  lemma {:induction false} BumpSummaryAt(ss: seq<Summary>, c: Call, k: nat)
    requires k <= |ss| && (forall j | 0 <= j < k :: ss[j].user != c.user) && (k < |ss| ==> ss[k].user == c.user)
    ensures var found := if k < |ss| then ss else ss + [Summary(c.user, [], ZERO)];
            BumpSummary(ss, c) ==
            found[k := Summary(c.user, BumpCategories(found[k].categories, c, false), Plus(found[k].total, Delta(c)))]
  {
    if k > 0 {
      BumpSummaryAt(ss[1..], c, k - 1);
    }
  }

  method AddToSummary(ss: seq<Summary>, c: Call) returns (r: seq<Summary>)
    ensures r == BumpSummary(ss, c)
  {
    var k := 0;
    while k < |ss| && ss[k].user != c.user
      invariant 0 <= k <= |ss| && forall j | 0 <= j < k :: ss[j].user != c.user
    {
      k := k + 1;
    }
    BumpSummaryAt(ss, c, k);
    var found := if k < |ss| then ss else ss + [Summary(c.user, [], ZERO)];
    var categories := AddToCategories(found[k].categories, c, false);
    r := found[k := Summary(c.user, categories, Plus(found[k].total, Delta(c)))];
  }

  class UsageAccountant {
    var results: Usage

    constructor ()
      ensures results == EMPTY
    {
      results := EMPTY;
    }

    method MakeEntry(c: Call)
      modifies this
      ensures results == Recorded(old(results), c)
    {
      if Ignored(c) {
        return;
      }
      var entries := AddToEntries(results.entries, c);
      var summary := AddToSummary(results.summary, c);
      results := Usage(entries, summary);
    }

    /** No complaints exactly when the report has both tables and covers the records; a crash
        exactly when it has both and lacks the summary of a recorded user. */
    method CompareResults(report: Report) returns (r: Outcome)
      ensures r == Complaints([]) <==>
              && report.entries.Some? && report.summary.Some?
              && Covered(results, Usage(report.entries.value, report.summary.value))
      ensures r == Crash <==>
              && report.entries.Some? && report.summary.Some?
              && exists s <- results.summary :: FindSummary(report.summary.value, s.user).None?
      ensures r == Complaints([MissingTables]) <==> report.entries.None? || report.summary.None?
      ensures report.entries.Some? && r.Complaints? && report.summary.Some? ==>
                forall u :: MissingEntry(u) in r.list <==>
                            exists e <- results.entries :: e.user == u && FindEntry(report.entries.value, u).None?
    {
      if report.entries.None? || report.summary.None? {
        return Complaints([MissingTables]);
      }
      var list: seq<Complaint> := [];
      var k := 0;
      while k < |results.entries|
        invariant 0 <= k <= |results.entries|
        invariant list == [] <==> forall j | 0 <= j < k :: EntryCovered(results.entries[j], report.entries.value)
        invariant forall u :: MissingEntry(u) in list <==>
                    exists e <- results.entries[..k] :: e.user == u && FindEntry(report.entries.value, u).None?
        invariant MissingTables !in list
      {
        assert results.entries[..k + 1] == results.entries[..k] + [results.entries[k]];
        var e := results.entries[k];
        match FindEntry(report.entries.value, e.user) {
          case None =>
            list := list + [MissingEntry(e.user)];
          case Some(e2) =>
            var more := CompareBuckets(e.buckets, e2.buckets, e.user);
            list := list + more;
        }
        k := k + 1;
      }
      assert results.entries[..k] == results.entries;
      ghost var entriesFine := list == [];
      k := 0;
      while k < |results.summary|
        invariant 0 <= k <= |results.summary|
        invariant forall j | 0 <= j < k :: FindSummary(report.summary.value, results.summary[j].user).Some?
        invariant list == [] <==>
                  entriesFine && forall j | 0 <= j < k :: SummaryCovered(results.summary[j], report.summary.value)
        invariant forall u :: MissingEntry(u) in list <==>
                    exists e <- results.entries :: e.user == u && FindEntry(report.entries.value, u).None?
        invariant MissingTables !in list
      {
        var s := results.summary[k];
        match FindSummary(report.summary.value, s.user) {
          case None =>
            assert s in results.summary && !SummaryCovered(s, report.summary.value);
            return Crash;
          case Some(s2) =>
            var more := CompareCategories(s.categories, s2.categories);
            var last := ValidateFields(s.total, Some(s2.total), "");
            list := list + more + last;
        }
        k := k + 1;
      }
      r := Complaints(list);
    }
  }
}
