/** The usage tables of the gateway test: what one recorded call adds to them, and what any run
    of calls leaves in them. */
module UsageRecords {
  import opened Options

  datatype Counters = Counters(received: int, sent: int, ops: int, successful: int)

  datatype Category = Category(name: string, counters: Counters, owner: Option<string>)
  datatype Bucket = Bucket(name: string, categories: seq<Category>)
  datatype Entry = Entry(user: string, buckets: seq<Bucket>)
  datatype Summary = Summary(user: string, categories: seq<Category>, total: Counters)
  datatype Usage = Usage(entries: seq<Entry>, summary: seq<Summary>)

  datatype Call = Call(cat: string, bucket: string, user: string, out: int, bytesIn: int, err: bool)

  const ZERO: Counters := Counters(0, 0, 0, 0)

  function Plus(a: Counters, b: Counters): Counters {
    Counters(a.received + b.received, a.sent + b.sent, a.ops + b.ops, a.successful + b.successful)
  }

  datatype Field = Received | Sent | Ops | Successful

  function Get(a: Counters, f: Field): int {
    match f
    case Received => a.received
    case Sent => a.sent
    case Ops => a.ops
    case Successful => a.successful
  }

  lemma GetPlus(a: Counters, b: Counters, f: Field)
    ensures Get(Plus(a, b), f) == Get(a, f) + Get(b, f) && Get(ZERO, f) == 0
  {
  }

  predicate Leq(a: Counters, b: Counters) {
    a.received <= b.received && a.sent <= b.sent && a.ops <= b.ops && a.successful <= b.successful
  }

  /** What a call adds to every counter it touches. */
  function Delta(c: Call): Counters {
    Counters(c.out, c.bytesIn, 1, if c.err then 0 else 1)
  }

  // ----- find or append, then update

  function Owner(c: Call, before: Option<string>): Option<string> {
    if !c.err && c.cat == "create_bucket" && before.None? then Some(c.user) else before
  }

  /** A category list after one call; only the lists below buckets record owners. */
  function BumpCategories(cs: seq<Category>, c: Call, owned: bool): seq<Category> {
    if cs == [] then [Category(c.cat, Plus(ZERO, Delta(c)), if owned then Owner(c, None) else None)]
    else if cs[0].name == c.cat then
      [Category(c.cat, Plus(cs[0].counters, Delta(c)), if owned then Owner(c, cs[0].owner) else cs[0].owner)] + cs[1..]
    else [cs[0]] + BumpCategories(cs[1..], c, owned)
  }

  function BumpBuckets(bs: seq<Bucket>, c: Call): seq<Bucket> {
    if bs == [] then [Bucket(c.bucket, BumpCategories([], c, true))]
    else if bs[0].name == c.bucket then [Bucket(c.bucket, BumpCategories(bs[0].categories, c, true))] + bs[1..]
    else [bs[0]] + BumpBuckets(bs[1..], c)
  }

  function BumpEntries(es: seq<Entry>, c: Call): seq<Entry> {
    if es == [] then [Entry(c.user, BumpBuckets([], c))]
    else if es[0].user == c.user then [Entry(c.user, BumpBuckets(es[0].buckets, c))] + es[1..]
    else [es[0]] + BumpEntries(es[1..], c)
  }

  function BumpSummary(ss: seq<Summary>, c: Call): seq<Summary> {
    if ss == [] then [Summary(c.user, BumpCategories([], c, false), Plus(ZERO, Delta(c)))]
    else if ss[0].user == c.user then
      [Summary(c.user, BumpCategories(ss[0].categories, c, false), Plus(ss[0].total, Delta(c)))] + ss[1..]
    else [ss[0]] + BumpSummary(ss[1..], c)
  }

  predicate Ignored(c: Call) {
    c.cat == "create_bucket" && c.err
  }

  function Recorded(u: Usage, c: Call): Usage {
    if Ignored(c) then u else Usage(BumpEntries(u.entries, c), BumpSummary(u.summary, c))
  }

  const EMPTY: Usage := Usage([], [])

  function Run(calls: seq<Call>): Usage {
    if calls == [] then EMPTY else Recorded(Run(calls[..|calls| - 1]), calls[|calls| - 1])
  }

  // ----- sums over the tables

  /** Which records to add up: None stands for all. */
  predicate Selected(want: Option<string>, name: string) {
    want.None? || want.value == name
  }

  function SumCategories(cs: seq<Category>, cat: Option<string>, f: Field): int {
    if cs == [] then 0
    else (if Selected(cat, cs[0].name) then Get(cs[0].counters, f) else 0) + SumCategories(cs[1..], cat, f)
  }

  function SumBuckets(bs: seq<Bucket>, bucket: Option<string>, cat: Option<string>, f: Field): int {
    if bs == [] then 0
    else (if Selected(bucket, bs[0].name) then SumCategories(bs[0].categories, cat, f) else 0) +
         SumBuckets(bs[1..], bucket, cat, f)
  }

  function SumEntries(es: seq<Entry>, user: string, bucket: Option<string>, cat: Option<string>, f: Field): int {
    if es == [] then 0
    else (if es[0].user == user then SumBuckets(es[0].buckets, bucket, cat, f) else 0) +
         SumEntries(es[1..], user, bucket, cat, f)
  }

  function SumSummary(ss: seq<Summary>, user: string, cat: Option<string>, f: Field): int {
    if ss == [] then 0
    else (if ss[0].user == user then SumCategories(ss[0].categories, cat, f) else 0) + SumSummary(ss[1..], user, cat, f)
  }

  function SumTotals(ss: seq<Summary>, user: string, f: Field): int {
    if ss == [] then 0
    else (if ss[0].user == user then Get(ss[0].total, f) else 0) + SumTotals(ss[1..], user, f)
  }

  predicate Matches(c: Call, user: string, bucket: Option<string>, cat: Option<string>) {
    c.user == user && Selected(bucket, c.bucket) && Selected(cat, c.cat)
  }

  /** The sum of what the matching calls add. */
  function SumCalls(calls: seq<Call>, user: string, bucket: Option<string>, cat: Option<string>, f: Field): int {
    if calls == [] then 0
    else
      var c := calls[|calls| - 1];
      SumCalls(calls[..|calls| - 1], user, bucket, cat, f) +
      if !Ignored(c) && Matches(c, user, bucket, cat) then Get(Delta(c), f) else 0
  }

  lemma {:induction false} BumpCategoriesSum(cs: seq<Category>, c: Call, owned: bool, cat: Option<string>, f: Field)
    ensures SumCategories(BumpCategories(cs, c, owned), cat, f) ==
            SumCategories(cs, cat, f) + if Selected(cat, c.cat) then Get(Delta(c), f) else 0
  {
    var after := BumpCategories(cs, c, owned);
    if cs == [] {
      GetPlus(ZERO, Delta(c), f);
      assert after[1..] == [];
    } else if cs[0].name == c.cat {
      GetPlus(cs[0].counters, Delta(c), f);
      assert after[1..] == cs[1..];
    } else {
      assert after[1..] == BumpCategories(cs[1..], c, owned);
      BumpCategoriesSum(cs[1..], c, owned, cat, f);
    }
  }

  lemma {:induction false} BumpBucketsSum(bs: seq<Bucket>, c: Call, bucket: Option<string>, cat: Option<string>,
                                          f: Field)
    ensures SumBuckets(BumpBuckets(bs, c), bucket, cat, f) ==
            SumBuckets(bs, bucket, cat, f) +
            if Selected(bucket, c.bucket) && Selected(cat, c.cat) then Get(Delta(c), f) else 0
  {
    var after := BumpBuckets(bs, c);
    if bs == [] {
      assert after[1..] == [];
      BumpCategoriesSum([], c, true, cat, f);
    } else if bs[0].name == c.bucket {
      assert after[1..] == bs[1..];
      BumpCategoriesSum(bs[0].categories, c, true, cat, f);
    } else {
      assert after[1..] == BumpBuckets(bs[1..], c);
      BumpBucketsSum(bs[1..], c, bucket, cat, f);
    }
  }

  lemma {:induction false} BumpEntriesSum(es: seq<Entry>, c: Call, user: string, bucket: Option<string>,
                                          cat: Option<string>, f: Field)
    ensures SumEntries(BumpEntries(es, c), user, bucket, cat, f) ==
            SumEntries(es, user, bucket, cat, f) + if Matches(c, user, bucket, cat) then Get(Delta(c), f) else 0
  {
    var after := BumpEntries(es, c);
    if es == [] {
      assert after[1..] == [];
      BumpBucketsSum([], c, bucket, cat, f);
    } else if es[0].user == c.user {
      assert after[1..] == es[1..];
      BumpBucketsSum(es[0].buckets, c, bucket, cat, f);
    } else {
      assert after[1..] == BumpEntries(es[1..], c);
      BumpEntriesSum(es[1..], c, user, bucket, cat, f);
    }
  }

  lemma {:induction false} BumpSummarySum(ss: seq<Summary>, c: Call, user: string, cat: Option<string>, f: Field)
    ensures SumSummary(BumpSummary(ss, c), user, cat, f) ==
            SumSummary(ss, user, cat, f) + if Matches(c, user, None, cat) then Get(Delta(c), f) else 0
  {
    var after := BumpSummary(ss, c);
    if ss == [] {
      assert after[1..] == [];
      BumpCategoriesSum([], c, false, cat, f);
    } else if ss[0].user == c.user {
      assert after[1..] == ss[1..];
      BumpCategoriesSum(ss[0].categories, c, false, cat, f);
    } else {
      assert after[1..] == BumpSummary(ss[1..], c);
      BumpSummarySum(ss[1..], c, user, cat, f);
    }
  }

  lemma {:induction false} BumpTotalsSum(ss: seq<Summary>, c: Call, user: string, f: Field)
    ensures SumTotals(BumpSummary(ss, c), user, f) ==
            SumTotals(ss, user, f) + if c.user == user then Get(Delta(c), f) else 0
  {
    var after := BumpSummary(ss, c);
    if ss == [] {
      GetPlus(ZERO, Delta(c), f);
      assert after[1..] == [];
    } else if ss[0].user == c.user {
      GetPlus(ss[0].total, Delta(c), f);
      assert after[1..] == ss[1..];
    } else {
      assert after[1..] == BumpSummary(ss[1..], c);
      BumpTotalsSum(ss[1..], c, user, f);
    }
  }

  lemma {:induction false} EntriesCountCalls(calls: seq<Call>, user: string, bucket: Option<string>,
                                             cat: Option<string>, f: Field)
    ensures SumEntries(Run(calls).entries, user, bucket, cat, f) == SumCalls(calls, user, bucket, cat, f)
  {
    if calls != [] {
      var front, c := calls[..|calls| - 1], calls[|calls| - 1];
      EntriesCountCalls(front, user, bucket, cat, f);
      BumpEntriesSum(Run(front).entries, c, user, bucket, cat, f);
    }
  }

  lemma {:induction false} SummaryCountsCalls(calls: seq<Call>, user: string, cat: Option<string>, f: Field)
    ensures SumSummary(Run(calls).summary, user, cat, f) == SumCalls(calls, user, None, cat, f)
  {
    if calls != [] {
      var front, c := calls[..|calls| - 1], calls[|calls| - 1];
      SummaryCountsCalls(front, user, cat, f);
      BumpSummarySum(Run(front).summary, c, user, cat, f);
    }
  }

  lemma {:induction false} TotalsCountCalls(calls: seq<Call>, user: string, f: Field)
    ensures SumTotals(Run(calls).summary, user, f) == SumCalls(calls, user, None, None, f)
  {
    if calls != [] {
      var front, c := calls[..|calls| - 1], calls[|calls| - 1];
      TotalsCountCalls(front, user, f);
      BumpTotalsSum(Run(front).summary, c, user, f);
    }
  }

  /** After any run, every selection of records adds up to what the matching calls added. */
  lemma TablesCountCalls(calls: seq<Call>, user: string, bucket: Option<string>, cat: Option<string>, f: Field)
    ensures SumEntries(Run(calls).entries, user, bucket, cat, f) == SumCalls(calls, user, bucket, cat, f)
    ensures SumSummary(Run(calls).summary, user, cat, f) == SumCalls(calls, user, None, cat, f)
    ensures SumTotals(Run(calls).summary, user, f) == SumCalls(calls, user, None, None, f)
  {
    EntriesCountCalls(calls, user, bucket, cat, f);
    SummaryCountsCalls(calls, user, cat, f);
    TotalsCountCalls(calls, user, f);
  }

  // ----- the arguments of the calls

  /** The call is recorded for a user, in one bucket and category or in all. A bucket that could not
      be created is not recorded. */
  predicate RecordedFor(c: Call, user: string, bucket: Option<string>, cat: Option<string>) {
    && c.user == user
    && (bucket.None? || bucket.value == c.bucket)
    && (cat.None? || cat.value == c.cat)
    && !(c.cat == "create_bucket" && c.err)
  }

  function Matching(calls: seq<Call>, user: string, bucket: Option<string>, cat: Option<string>): seq<Call> {
    if calls == [] then []
    else if RecordedFor(calls[|calls| - 1], user, bucket, cat) then
      Matching(calls[..|calls| - 1], user, bucket, cat) + [calls[|calls| - 1]]
    else Matching(calls[..|calls| - 1], user, bucket, cat)
  }

  function SumOut(calls: seq<Call>): int {
    if calls == [] then 0 else SumOut(calls[..|calls| - 1]) + calls[|calls| - 1].out
  }

  function SumIn(calls: seq<Call>): int {
    if calls == [] then 0 else SumIn(calls[..|calls| - 1]) + calls[|calls| - 1].bytesIn
  }

  function Successes(calls: seq<Call>): nat {
    if calls == [] then 0 else Successes(calls[..|calls| - 1]) + if calls[|calls| - 1].err then 0 else 1
  }

  /** What the arguments of calls amount to in a counter: bytes put out are received, bytes taken in
      are sent. */
  function Amount(calls: seq<Call>, f: Field): int {
    match f
    case Received => SumOut(calls)
    case Sent => SumIn(calls)
    case Ops => |calls|
    case Successful => Successes(calls)
  }

  lemma AmountSnoc(calls: seq<Call>, c: Call, f: Field)
    ensures Amount(calls + [c], f) == Amount(calls, f) + Get(Delta(c), f)
  {
    assert (calls + [c])[..|calls|] == calls;
  }

  lemma MatchingSnoc(calls: seq<Call>, c: Call, user: string, bucket: Option<string>, cat: Option<string>)
    ensures Matching(calls + [c], user, bucket, cat) ==
            Matching(calls, user, bucket, cat) + if RecordedFor(c, user, bucket, cat) then [c] else []
  {
    assert (calls + [c])[..|calls|] == calls;
  }

  lemma MatchingAmount(calls: seq<Call>, c: Call, user: string, bucket: Option<string>, cat: Option<string>, f: Field)
    ensures Amount(Matching(calls + [c], user, bucket, cat), f) ==
            Amount(Matching(calls, user, bucket, cat), f) +
            if !Ignored(c) && Matches(c, user, bucket, cat) then Get(Delta(c), f) else 0
  {
    MatchingSnoc(calls, c, user, bucket, cat);
    var before := Matching(calls, user, bucket, cat);
    if RecordedFor(c, user, bucket, cat) {
      AmountSnoc(before, c, f);
    } else {
      assert before + [] == before;
    }
  }

  lemma {:induction false} CallsAmount(calls: seq<Call>, user: string, bucket: Option<string>, cat: Option<string>,
                                       f: Field)
    ensures SumCalls(calls, user, bucket, cat, f) == Amount(Matching(calls, user, bucket, cat), f)
  {
    if calls != [] {
      var front, c := calls[..|calls| - 1], calls[|calls| - 1];
      CallsAmount(front, user, bucket, cat, f);
      MatchingAmount(front, c, user, bucket, cat, f);
      assert calls == front + [c];
    }
  }

  /** After any calls, each selection of records holds the bytes received and sent, the number and the
      number of successful ones of the calls recorded for it. */
  lemma TablesHoldAmounts(calls: seq<Call>, user: string, bucket: Option<string>, cat: Option<string>, f: Field)
    ensures SumEntries(Run(calls).entries, user, bucket, cat, f) == Amount(Matching(calls, user, bucket, cat), f)
    ensures SumSummary(Run(calls).summary, user, cat, f) == Amount(Matching(calls, user, None, cat), f)
    ensures SumTotals(Run(calls).summary, user, f) == Amount(Matching(calls, user, None, None), f)
  {
    TablesCountCalls(calls, user, bucket, cat, f);
    CallsAmount(calls, user, bucket, cat, f);
    CallsAmount(calls, user, None, cat, f);
    CallsAmount(calls, user, None, None, f);
  }

  /** Conservation: a user's total is the sum of the summary's categories and the sum of the
      user's buckets and categories, in each of the four counters. */
  lemma Conservation(calls: seq<Call>, user: string, f: Field)
    ensures var u := Run(calls);
            && SumTotals(u.summary, user, f) == SumSummary(u.summary, user, None, f)
            && SumTotals(u.summary, user, f) == SumEntries(u.entries, user, None, None, f)
  {
    TablesCountCalls(calls, user, None, None, f);
  }

  // ----- successful operations

  predicate Sound(a: Counters) {
    0 <= a.successful <= a.ops
  }

  predicate SoundCategories(cs: seq<Category>) {
    forall x <- cs :: Sound(x.counters)
  }

  predicate SoundBuckets(bs: seq<Bucket>) {
    forall b <- bs :: SoundCategories(b.categories)
  }

  /** No record of either table counts more successful operations than operations. */
  predicate SoundUsage(u: Usage) {
    && (forall e <- u.entries :: SoundBuckets(e.buckets))
    && (forall s <- u.summary :: SoundCategories(s.categories) && Sound(s.total))
  }

  lemma {:induction false} BumpCategoriesSound(cs: seq<Category>, c: Call, owned: bool)
    requires SoundCategories(cs)
    ensures SoundCategories(BumpCategories(cs, c, owned))
  {
    if cs != [] && cs[0].name != c.cat {
      BumpCategoriesSound(cs[1..], c, owned);
    }
  }

  lemma {:induction false} BumpBucketsSound(bs: seq<Bucket>, c: Call)
    requires SoundBuckets(bs)
    ensures SoundBuckets(BumpBuckets(bs, c))
  {
    if bs == [] {
      BumpCategoriesSound([], c, true);
    } else if bs[0].name == c.bucket {
      BumpCategoriesSound(bs[0].categories, c, true);
    } else {
      BumpBucketsSound(bs[1..], c);
    }
  }

  lemma {:induction false} BumpEntriesSound(es: seq<Entry>, c: Call)
    requires forall e <- es :: SoundBuckets(e.buckets)
    ensures forall e <- BumpEntries(es, c) :: SoundBuckets(e.buckets)
  {
    if es == [] {
      BumpBucketsSound([], c);
    } else if es[0].user == c.user {
      BumpBucketsSound(es[0].buckets, c);
    } else {
      BumpEntriesSound(es[1..], c);
    }
  }

  lemma {:induction false} BumpSummarySound(ss: seq<Summary>, c: Call)
    requires forall s <- ss :: SoundCategories(s.categories) && Sound(s.total)
    ensures forall s <- BumpSummary(ss, c) :: SoundCategories(s.categories) && Sound(s.total)
  {
    if ss == [] {
      BumpCategoriesSound([], c, false);
    } else if ss[0].user == c.user {
      BumpCategoriesSound(ss[0].categories, c, false);
    } else {
      BumpSummarySound(ss[1..], c);
    }
  }

  lemma {:induction false} SuccessfulBounded(calls: seq<Call>)
    ensures SoundUsage(Run(calls))
  {
    if calls != [] {
      var front := calls[..|calls| - 1];
      SuccessfulBounded(front);
      BumpEntriesSound(Run(front).entries, calls[|calls| - 1]);
      BumpSummarySound(Run(front).summary, calls[|calls| - 1]);
    }
  }

  // ----- owners

  /** Only a record of created buckets names an owner, the user of the entry. */
  predicate OwnedBy(cs: seq<Category>, user: string) {
    forall x <- cs :: x.owner == if x.name == "create_bucket" then Some(user) else None
  }

  predicate Unowned(cs: seq<Category>) {
    forall x <- cs :: x.owner == None
  }

  predicate BucketsOwned(bs: seq<Bucket>, user: string) {
    forall b <- bs :: OwnedBy(b.categories, user)
  }

  lemma {:induction false} BumpCategoriesOwned(cs: seq<Category>, c: Call)
    requires !Ignored(c)
    ensures OwnedBy(cs, c.user) ==> OwnedBy(BumpCategories(cs, c, true), c.user)
    ensures Unowned(cs) ==> Unowned(BumpCategories(cs, c, false))
  {
    if cs != [] && cs[0].name != c.cat {
      BumpCategoriesOwned(cs[1..], c);
    }
  }

  lemma {:induction false} BumpBucketsOwned(bs: seq<Bucket>, c: Call)
    requires !Ignored(c) && BucketsOwned(bs, c.user)
    ensures BucketsOwned(BumpBuckets(bs, c), c.user)
  {
    if bs == [] {
      BumpCategoriesOwned([], c);
    } else if bs[0].name == c.bucket {
      BumpCategoriesOwned(bs[0].categories, c);
    } else {
      BumpBucketsOwned(bs[1..], c);
    }
  }

  lemma {:induction false} BumpEntriesOwned(es: seq<Entry>, c: Call)
    requires !Ignored(c) && forall e <- es :: BucketsOwned(e.buckets, e.user)
    ensures forall e <- BumpEntries(es, c) :: BucketsOwned(e.buckets, e.user)
  {
    if es == [] {
      BumpBucketsOwned([], c);
    } else if es[0].user == c.user {
      BumpBucketsOwned(es[0].buckets, c);
    } else {
      BumpEntriesOwned(es[1..], c);
    }
  }

  lemma {:induction false} BumpSummaryUnowned(ss: seq<Summary>, c: Call)
    requires !Ignored(c) && forall s <- ss :: Unowned(s.categories)
    ensures forall s <- BumpSummary(ss, c) :: Unowned(s.categories)
  {
    if ss == [] {
      BumpCategoriesOwned([], c);
    } else if ss[0].user == c.user {
      BumpCategoriesOwned(ss[0].categories, c);
    } else {
      BumpSummaryUnowned(ss[1..], c);
    }
  }

  /** After any calls, the records of created buckets name their user as the owner, and no others
      name one. */
  lemma {:induction false} OwnersRecorded(calls: seq<Call>)
    ensures forall e <- Run(calls).entries :: BucketsOwned(e.buckets, e.user)
    ensures forall s <- Run(calls).summary :: Unowned(s.categories)
  {
    if calls != [] {
      var front, c := calls[..|calls| - 1], calls[|calls| - 1];
      OwnersRecorded(front);
      if !Ignored(c) {
        BumpEntriesOwned(Run(front).entries, c);
        BumpSummaryUnowned(Run(front).summary, c);
      }
    }
  }

  // ----- names stay unique

  predicate UniqueCategories(cs: seq<Category>) {
    forall j, k | 0 <= j < k < |cs| :: cs[j].name != cs[k].name
  }

  predicate UniqueBuckets(bs: seq<Bucket>) {
    && (forall j, k | 0 <= j < k < |bs| :: bs[j].name != bs[k].name)
    && forall k | 0 <= k < |bs| :: UniqueCategories(bs[k].categories)
  }

  predicate UniqueEntries(es: seq<Entry>) {
    && (forall j, k | 0 <= j < k < |es| :: es[j].user != es[k].user)
    && forall k | 0 <= k < |es| :: UniqueBuckets(es[k].buckets)
  }

  predicate UniqueSummary(ss: seq<Summary>) {
    && (forall j, k | 0 <= j < k < |ss| :: ss[j].user != ss[k].user)
    && forall k | 0 <= k < |ss| :: UniqueCategories(ss[k].categories)
  }

  predicate Unique(u: Usage) {
    UniqueEntries(u.entries) && UniqueSummary(u.summary)
  }

  lemma {:induction false} BumpCategoriesUnique(cs: seq<Category>, c: Call, owned: bool)
    requires UniqueCategories(cs)
    ensures UniqueCategories(BumpCategories(cs, c, owned))
    ensures forall k | 0 <= k < |BumpCategories(cs, c, owned)| ::
              || BumpCategories(cs, c, owned)[k].name == c.cat
              || exists j :: 0 <= j < |cs| && cs[j].name == BumpCategories(cs, c, owned)[k].name
  {
    if cs != [] && cs[0].name != c.cat {
      BumpCategoriesUnique(cs[1..], c, owned);
    }
  }

  lemma {:induction false} BumpBucketsUnique(bs: seq<Bucket>, c: Call)
    requires UniqueBuckets(bs)
    ensures UniqueBuckets(BumpBuckets(bs, c))
    ensures forall k | 0 <= k < |BumpBuckets(bs, c)| ::
              || BumpBuckets(bs, c)[k].name == c.bucket
              || exists j :: 0 <= j < |bs| && bs[j].name == BumpBuckets(bs, c)[k].name
  {
    if bs == [] {
    } else if bs[0].name == c.bucket {
      BumpCategoriesUnique(bs[0].categories, c, true);
    } else {
      BumpBucketsUnique(bs[1..], c);
    }
  }

  lemma {:induction false} BumpEntriesUnique(es: seq<Entry>, c: Call)
    requires UniqueEntries(es)
    ensures UniqueEntries(BumpEntries(es, c))
    ensures forall k | 0 <= k < |BumpEntries(es, c)| ::
              || BumpEntries(es, c)[k].user == c.user
              || exists j :: 0 <= j < |es| && es[j].user == BumpEntries(es, c)[k].user
  {
    if es == [] {
    } else if es[0].user == c.user {
      BumpBucketsUnique(es[0].buckets, c);
    } else {
      BumpEntriesUnique(es[1..], c);
    }
  }

  lemma {:induction false} BumpSummaryUnique(ss: seq<Summary>, c: Call)
    requires UniqueSummary(ss)
    ensures UniqueSummary(BumpSummary(ss, c))
    ensures forall k | 0 <= k < |BumpSummary(ss, c)| ::
              || BumpSummary(ss, c)[k].user == c.user
              || exists j :: 0 <= j < |ss| && ss[j].user == BumpSummary(ss, c)[k].user
  {
    if ss == [] {
    } else if ss[0].user == c.user {
      BumpCategoriesUnique(ss[0].categories, c, false);
    } else {
      BumpSummaryUnique(ss[1..], c);
    }
  }

  /** Find-or-append never makes a second record for a name. */
  lemma {:induction false} RunUnique(calls: seq<Call>)
    ensures Unique(Run(calls))
  {
    if calls != [] {
      var front, c := calls[..|calls| - 1], calls[|calls| - 1];
      RunUnique(front);
      BumpEntriesUnique(Run(front).entries, c);
      BumpSummaryUnique(Run(front).summary, c);
    }
  }
}
