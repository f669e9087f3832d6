/** The customer acquisition cost report (src/growth/growth-math.ts:51-165).

    `Tally` is the plain reading of the report: count the organizations, and add up the
    spend, of some months and some channels. The method builds the report the way the
    source does, in one pass over the rows and a map of buckets per month. */
module CacReport {
  import opened Prelude

  datatype Channel =
    | Facebook | Instagram | Youtube | Tiktok | Whatsapp | TeacherReferral | AssistantOrAgency
    | GoogleSearch | GoogleAds | MetaAds | AiAssistant | Event | Email | Partner | Other | Unknown

  /** Spend may be logged against any channel but `Unknown`, and only those get a row. */
  function SpendChannels(): seq<Channel> {
    [Facebook, Instagram, Youtube, Tiktok, Whatsapp, TeacherReferral, AssistantOrAgency,
     GoogleSearch, GoogleAds, MetaAds, AiAssistant, Event, Email, Partner, Other]
  }

  lemma ChannelsComplete(c: Channel)
    ensures c in SpendChannels() <==> c != Unknown
    ensures Distinct(SpendChannels())
  {
    var s := SpendChannels();
    assert s[0] == Facebook && s[1] == Instagram && s[2] == Youtube && s[3] == Tiktok && s[4] == Whatsapp
        && s[5] == TeacherReferral && s[6] == AssistantOrAgency && s[7] == GoogleSearch && s[8] == GoogleAds
        && s[9] == MetaAds && s[10] == AiAssistant && s[11] == Event && s[12] == Email && s[13] == Partner && s[14] == Other;
  }

  lemma OneMoreChannel(n: nat)
    requires n < |SpendChannels()|
    ensures Elements(SpendChannels()[..n + 1]) == Elements(SpendChannels()[..n]) + {SpendChannels()[n]}
    ensures SpendChannels()[n] !in Elements(SpendChannels()[..n])
  {
    ChannelsComplete(Unknown);
    hide SpendChannels;
    assert SpendChannels()[..n + 1] == SpendChannels()[..n] + [SpendChannels()[n]];
  }

  function AllChannels(): set<Channel> { Elements(SpendChannels()) + {Unknown} }

  datatype Organization = Organization(month: string, channel: Channel, paying: bool, foundingPaying: bool)

  datatype Spend = Spend(month: string, channel: Channel, amount: int)

  datatype Bucket = Bucket(signups: int, paying: int, foundingPaying: int, spend: int) {
    function Plus(b: Bucket): Bucket {
      Bucket(signups + b.signups, paying + b.paying, foundingPaying + b.foundingPaying, spend + b.spend)
    }
  }

  const EMPTY := Bucket(0, 0, 0, 0)

  type Buckets = map<Channel, Bucket>

  function At(buckets: Buckets, channel: Channel): Bucket {
    if channel in buckets then buckets[channel] else EMPTY
  }

  /** `Math.round(spend / paying)`, in whole minor units; nobody paying gives `None`. */
  function CacOf(spend: int, paying: int): Option<int> {
    if paying > 0 then Some((2 * spend + paying) / (2 * paying)) else None
  }

  /** A share to four decimals, as so many ten-thousandths. */
  function RatioOf(part: int, whole: int): Option<int> {
    if whole > 0 then Some((20000 * part + whole) / (2 * whole)) else None
  }

  lemma TimesMore(d: int, a: int, b: int)
    requires d > 0 && a < b
    ensures d * a + d <= d * b
  {
    assert d * (b - a - 1) >= 0;
    assert d * (b - a - 1) == d * b - d * a - d;
  }

  lemma QuotientIs(n: int, d: int, q: int)
    requires d > 0
    ensures n / d == q <==> d * q <= n < d * q + d
  {
    var e := n / d;
    assert d * e <= n < d * e + d;
    if q > e {
      TimesMore(d, e, q);
    } else if e > q {
      TimesMore(d, q, e);
    }
  }

  /** There is a cost exactly when somebody pays, and it is the nearest whole minor unit, the
      upper one of two: times the payers it misses the spend by at most half a unit each. */
  lemma CacIsNearest(spend: int, paying: int, cac: int)
    ensures CacOf(spend, paying) == Some(cac) <==> paying > 0 && -paying < 2 * (cac * paying - spend) <= paying
  {
    if paying > 0 {
      QuotientIs(2 * spend + paying, 2 * paying, cac);
      assert 2 * paying * cac == 2 * (cac * paying);
    }
  }

  /** There is a share exactly when there is a whole, and it is the nearest ten-thousandth. */
  lemma RatioIsNearest(part: int, whole: int, share: int)
    ensures RatioOf(part, whole) == Some(share) <==> whole > 0 && -whole < 2 * (share * whole - 10000 * part) <= whole
  {
    if whole > 0 {
      QuotientIs(20000 * part + whole, 2 * whole, share);
      assert 2 * whole * share == 2 * (share * whole);
    }
  }

  // ------------------------------------------------------------------ the counting reading

  function OfOrganization(o: Organization, months: set<string>, channels: set<Channel>): Bucket {
    if o.month in months && o.channel in channels
    then Bucket(1, if o.paying then 1 else 0, if o.paying && o.foundingPaying then 1 else 0, 0)
    else EMPTY
  }

  function OfSpend(s: Spend, months: set<string>, channels: set<Channel>): Bucket {
    if s.month in months && s.channel in channels then Bucket(0, 0, 0, s.amount) else EMPTY
  }

  function Organizations(orgs: seq<Organization>, months: set<string>, channels: set<Channel>): Bucket {
    if orgs == [] then EMPTY
    else Organizations(orgs[..|orgs| - 1], months, channels).Plus(OfOrganization(orgs[|orgs| - 1], months, channels))
  }

  function Spending(spend: seq<Spend>, months: set<string>, channels: set<Channel>): Bucket {
    if spend == [] then EMPTY
    else Spending(spend[..|spend| - 1], months, channels).Plus(OfSpend(spend[|spend| - 1], months, channels))
  }

  function Tally(orgs: seq<Organization>, spend: seq<Spend>, months: set<string>, channels: set<Channel>): Bucket {
    Organizations(orgs, months, channels).Plus(Spending(spend, months, channels))
  }

  // ------------------------------------------------------------------ the report

  datatype ChannelRow = ChannelRow(channel: Channel, bucket: Bucket, cac: Option<int>)

  datatype Totals = Totals(bucket: Bucket, blendedCac: Option<int>, attributedSignups: int)

  datatype Section = Section(channels: seq<ChannelRow>, totals: Totals)

  datatype Report = Report(months: seq<(string, Section)>, overall: Section, coverage: Option<int>)

  function RowOf(channel: Channel, b: Bucket): ChannelRow {
    ChannelRow(channel, b, CacOf(b.spend, b.paying))
  }

  function TotalsOf(all: Bucket, unknown: Bucket): Totals {
    Totals(all, CacOf(all.spend, all.paying), all.signups - unknown.signups)
  }

  /** What a section of the report should say of some months. */
  function SectionOf(orgs: seq<Organization>, spend: seq<Spend>, months: set<string>): Section {
    Section(
      seq(|SpendChannels()|, i requires 0 <= i < |SpendChannels()| => RowOf(SpendChannels()[i], Tally(orgs, spend, months, {SpendChannels()[i]}))),
      TotalsOf(Tally(orgs, spend, months, AllChannels()), Tally(orgs, spend, months, {Unknown})))
  }

  function ReportOf(months: seq<string>, orgs: seq<Organization>, spend: seq<Spend>): Report {
    var overall := SectionOf(orgs, spend, Elements(months));
    Report(
      seq(|months|, i requires 0 <= i < |months| => (months[i], SectionOf(orgs, spend, {months[i]}))),
      overall,
      RatioOf(overall.totals.attributedSignups, overall.totals.bucket.signups))
  }

  // ------------------------------------------------------------------ the one-pass build

  /** The buckets hold the tally of every channel, and none is missing. */
  ghost predicate Holds(buckets: Buckets, orgs: seq<Organization>, spend: seq<Spend>, months: set<string>) {
    forall c :: At(buckets, c) == Tally(orgs, spend, months, {c})
  }

  method ChannelRows(buckets: Buckets, ghost orgs: seq<Organization>, ghost spend: seq<Spend>, ghost months: set<string>)
    returns (rows: seq<ChannelRow>)
    requires Holds(buckets, orgs, spend, months)
    ensures rows == SectionOf(orgs, spend, months).channels
  {
    hide Tally;
    rows := [];
    for i := 0 to |SpendChannels()|
      invariant rows == SectionOf(orgs, spend, months).channels[..i]
    {
      rows := rows + [RowOf(SpendChannels()[i], At(buckets, SpendChannels()[i]))];
    }
  }

  method AddUp(buckets: Buckets, ghost orgs: seq<Organization>, ghost spend: seq<Spend>, ghost months: set<string>)
    returns (totals: Totals)
    requires Holds(buckets, orgs, spend, months)
    ensures totals == SectionOf(orgs, spend, months).totals
  {
    hide Tally, SpendChannels;
    var all, unknownSignups := EMPTY, 0;
    var rest := buckets.Keys;
    ghost var done: set<Channel> := {};
    NothingOfNoChannel(orgs, spend, months);
    while rest != {}
      invariant done + rest == buckets.Keys && done !! rest
      invariant all == Tally(orgs, spend, months, done)
      invariant unknownSignups == if Unknown in done then At(buckets, Unknown).signups else 0
      decreases rest
    {
      var channel :| channel in rest;
      var b := buckets[channel];
      ChannelsAdd(orgs, spend, months, done, {channel});
      assert b == At(buckets, channel);
      all := all.Plus(b);
      if channel == Unknown {
        unknownSignups := unknownSignups + b.signups;
      }
      done, rest := done + {channel}, rest - {channel};
    }
    assert done == buckets.Keys;
    assert done <= AllChannels() by {
      forall c | c in done ensures c in AllChannels() {
        ChannelsComplete(c);
      }
    }
    assert forall c :: c in AllChannels() - done ==> At(buckets, c) == EMPTY;
    EmptyChannelsAddNothing(orgs, spend, months, AllChannels() - done);
    ChannelsAdd(orgs, spend, months, done, AllChannels() - done);
    assert done + (AllChannels() - done) == AllChannels();
    assert Unknown !in done ==> At(buckets, Unknown) == EMPTY;
    totals := Totals(all, CacOf(all.spend, all.paying), all.signups - unknownSignups);
  }

  /** What one row does to the buckets of some months. */
  function Counted(buckets: Buckets, channel: Channel, one: Bucket, inWindow: bool): Buckets {
    if inWindow then buckets[channel := At(buckets, channel).Plus(one)] else buckets
  }

  function OneSignup(o: Organization): Bucket {
    Bucket(1, if o.paying then 1 else 0, if o.paying && o.foundingPaying then 1 else 0, 0)
  }

  lemma {:induction false} CountsOrganization(buckets: Buckets, orgs: seq<Organization>, o: Organization, months: set<string>)
    requires Holds(buckets, orgs, [], months)
    ensures Holds(Counted(buckets, o.channel, OneSignup(o), o.month in months), orgs + [o], [], months)
  {
    hide Tally, OneSignup;
    var after := Counted(buckets, o.channel, OneSignup(o), o.month in months);
    forall c ensures At(after, c) == Tally(orgs + [o], [], months, {c}) {
      assert At(buckets, c) == Tally(orgs, [], months, {c});
      OrganizationsNext(orgs, o, [], months, c);
    }
  }

  lemma {:induction false} OrganizationsNext(orgs: seq<Organization>, o: Organization, spend: seq<Spend>, months: set<string>, c: Channel)
    ensures Tally(orgs + [o], spend, months, {c})
         == if o.month in months && o.channel == c then Tally(orgs, spend, months, {c}).Plus(OneSignup(o)) else Tally(orgs, spend, months, {c})
  {
    assert (orgs + [o])[..|orgs|] == orgs;
    hide Spending;
  }

  lemma {:induction false} CountsSpend(buckets: Buckets, orgs: seq<Organization>, spend: seq<Spend>, s: Spend, months: set<string>)
    requires Holds(buckets, orgs, spend, months)
    ensures Holds(Counted(buckets, s.channel, Bucket(0, 0, 0, s.amount), s.month in months), orgs, spend + [s], months)
  {
    var after := Counted(buckets, s.channel, Bucket(0, 0, 0, s.amount), s.month in months);
    assert (spend + [s])[..|spend|] == spend;
    forall c ensures At(after, c) == Tally(orgs, spend + [s], months, {c}) {
      assert Spending(spend + [s], months, {c}) == Spending(spend, months, {c}).Plus(OfSpend(s, months, {c}));
      assert At(buckets, c) == Tally(orgs, spend, months, {c});
    }
  }

  /** The two passes over the rows; rows of other months are skipped. */
  method CountRows(months: seq<string>, orgs: seq<Organization>, spend: seq<Spend>)
    returns (perMonth: map<string, Buckets>, overall: Buckets)
    ensures perMonth.Keys == Elements(months)
    ensures Holds(overall, orgs, spend, Elements(months))
    ensures forall month :: month in perMonth ==> Holds(perMonth[month], orgs, spend, {month})
  {
    hide Holds, OneSignup, At;
    perMonth := map month | month in months :: map[];
    overall := map[];
    ghost var window := Elements(months);
    NothingYet(window);
    forall month | month in perMonth ensures Holds(perMonth[month], [], [], {month}) {
      NothingYet({month});
    }
    var i := 0;
    while i < |orgs|
      invariant 0 <= i <= |orgs| && perMonth.Keys == window
      invariant Holds(overall, orgs[..i], [], window)
      invariant forall month :: month in perMonth ==> Holds(perMonth[month], orgs[..i], [], {month})
    {
      var org := orgs[i];
      assert orgs[..i + 1] == orgs[..i] + [org];
      CountsOrganization(overall, orgs[..i], org, window);
      forall month | month in perMonth ensures Holds(Counted(perMonth[month], org.channel, OneSignup(org), org.month == month), orgs[..i + 1], [], {month}) {
        CountsOrganization(perMonth[month], orgs[..i], org, {month});
      }
      if org.month in perMonth {
        overall := overall[org.channel := At(overall, org.channel).Plus(OneSignup(org))];
        perMonth := perMonth[org.month := perMonth[org.month][org.channel := At(perMonth[org.month], org.channel).Plus(OneSignup(org))]];
      }
      i := i + 1;
    }
    assert orgs[..i] == orgs;
    var j := 0;
    while j < |spend|
      invariant 0 <= j <= |spend| && perMonth.Keys == window
      invariant Holds(overall, orgs, spend[..j], window)
      invariant forall month :: month in perMonth ==> Holds(perMonth[month], orgs, spend[..j], {month})
    {
      var entry := spend[j];
      var one := Bucket(0, 0, 0, entry.amount);
      assert spend[..j + 1] == spend[..j] + [entry];
      CountsSpend(overall, orgs, spend[..j], entry, window);
      forall month | month in perMonth ensures Holds(Counted(perMonth[month], entry.channel, one, entry.month == month), orgs, spend[..j + 1], {month}) {
        CountsSpend(perMonth[month], orgs, spend[..j], entry, {month});
      }
      if entry.month in perMonth {
        overall := overall[entry.channel := At(overall, entry.channel).Plus(one)];
        perMonth := perMonth[entry.month := perMonth[entry.month][entry.channel := At(perMonth[entry.month], entry.channel).Plus(one)]];
      }
      j := j + 1;
    }
    assert spend[..j] == spend;
  }

  method BuildCacReport(months: seq<string>, orgs: seq<Organization>, spend: seq<Spend>) returns (report: Report)
    ensures report == ReportOf(months, orgs, spend)
  {
    hide Holds, SectionOf;
    ghost var window := Elements(months);
    var perMonth, overall := CountRows(months, orgs, spend);
    var sections: seq<(string, Section)> := [];
    for k := 0 to |months|
      invariant sections == ReportOf(months, orgs, spend).months[..k]
    {
      var rows := ChannelRows(perMonth[months[k]], orgs, spend, {months[k]});
      var totals := AddUp(perMonth[months[k]], orgs, spend, {months[k]});
      sections := sections + [(months[k], Section(rows, totals))];
    }
    var rows := ChannelRows(overall, orgs, spend, window);
    var totals := AddUp(overall, orgs, spend, window);
    report := Report(sections, Section(rows, totals), RatioOf(totals.attributedSignups, totals.bucket.signups));
  }

  // ------------------------------------------------------------------ what the counts obey

  lemma NothingYet(months: set<string>)
    ensures Holds(map[], [], [], months)
  {
  }

  lemma NothingOfNoChannel(orgs: seq<Organization>, spend: seq<Spend>, months: set<string>)
    ensures Tally(orgs, spend, months, {}) == EMPTY
  {
    OrganizationsOfNoChannel(orgs, months);
    SpendingOfNoChannel(spend, months);
  }

  lemma OrganizationsOfNoChannel(orgs: seq<Organization>, months: set<string>)
    ensures Organizations(orgs, months, {}) == EMPTY
  {
  }

  lemma SpendingOfNoChannel(spend: seq<Spend>, months: set<string>)
    ensures Spending(spend, months, {}) == EMPTY
  {
  }

  /** Channels add up, and so do months. */
  lemma ChannelsAdd(orgs: seq<Organization>, spend: seq<Spend>, months: set<string>, a: set<Channel>, b: set<Channel>)
    requires a !! b
    ensures Tally(orgs, spend, months, a + b) == Tally(orgs, spend, months, a).Plus(Tally(orgs, spend, months, b))
  {
    hide Organizations, Spending;
    OrganizationChannelsAdd(orgs, months, a, b);
    SpendChannelsAdd(spend, months, a, b);
  }

  lemma OneOrganization(o: Organization, months: set<string>, a: set<Channel>, b: set<Channel>)
    requires a !! b
    ensures OfOrganization(o, months, a + b) == OfOrganization(o, months, a).Plus(OfOrganization(o, months, b))
  {
  }

  lemma {:induction false} OrganizationChannelsAdd(orgs: seq<Organization>, months: set<string>, a: set<Channel>, b: set<Channel>)
    requires a !! b
    ensures Organizations(orgs, months, a + b) == Organizations(orgs, months, a).Plus(Organizations(orgs, months, b))
  {
    hide OfOrganization;
    if orgs != [] {
      OrganizationChannelsAdd(orgs[..|orgs| - 1], months, a, b);
      OneOrganization(orgs[|orgs| - 1], months, a, b);
    }
  }

  lemma OneSpend(s: Spend, months: set<string>, a: set<Channel>, b: set<Channel>)
    requires a !! b
    ensures OfSpend(s, months, a + b) == OfSpend(s, months, a).Plus(OfSpend(s, months, b))
  {
  }

  lemma {:induction false} SpendChannelsAdd(spend: seq<Spend>, months: set<string>, a: set<Channel>, b: set<Channel>)
    requires a !! b
    ensures Spending(spend, months, a + b) == Spending(spend, months, a).Plus(Spending(spend, months, b))
  {
    hide OfSpend;
    if spend != [] {
      SpendChannelsAdd(spend[..|spend| - 1], months, a, b);
      OneSpend(spend[|spend| - 1], months, a, b);
    }
  }

  lemma {:induction false} MonthsAdd(orgs: seq<Organization>, spend: seq<Spend>, a: set<string>, b: set<string>, channels: set<Channel>)
    requires a !! b
    ensures Tally(orgs, spend, a + b, channels) == Tally(orgs, spend, a, channels).Plus(Tally(orgs, spend, b, channels))
    decreases |orgs| + |spend|
  {
    if orgs != [] {
      MonthsAdd(orgs[..|orgs| - 1], spend, a, b, channels);
    } else if spend != [] {
      MonthsAdd(orgs, spend[..|spend| - 1], a, b, channels);
    }
  }

  lemma {:induction false} EmptyChannelsAddNothing(orgs: seq<Organization>, spend: seq<Spend>, months: set<string>, channels: set<Channel>)
    requires forall c :: c in channels ==> Tally(orgs, spend, months, {c}) == EMPTY
    ensures Tally(orgs, spend, months, channels) == EMPTY
    decreases |channels|
  {
    hide Tally;
    if channels == {} {
      NothingOfNoChannel(orgs, spend, months);
    } else {
      var c :| c in channels;
      var rest := channels - {c};
      EmptyChannelsAddNothing(orgs, spend, months, rest);
      ChannelsAdd(orgs, spend, months, rest, {c});
      assert rest + {c} == channels;
    }
  }

  function SumOfMonths(orgs: seq<Organization>, spend: seq<Spend>, months: seq<string>, channels: set<Channel>): Bucket {
    if months == [] then EMPTY
    else SumOfMonths(orgs, spend, months[..|months| - 1], channels).Plus(Tally(orgs, spend, {months[|months| - 1]}, channels))
  }

  /** Overall is the sum over the months, in every channel and in all; a month listed twice
      counts once overall. */
  lemma {:induction false} OverallIsSumOfMonths(orgs: seq<Organization>, spend: seq<Spend>, months: seq<string>, channels: set<Channel>)
    requires Distinct(months)
    ensures Tally(orgs, spend, Elements(months), channels) == SumOfMonths(orgs, spend, months, channels)
    decreases |months|
  {
    hide Tally;
    if months == [] {
      assert Elements(months) == {};
      NothingInNoMonth(orgs, spend, channels);
    } else {
      var before, last := months[..|months| - 1], months[|months| - 1];
      OverallIsSumOfMonths(orgs, spend, before, channels);
      assert last !in before;
      assert Elements(months) == Elements(before) + {last};
      MonthsAdd(orgs, spend, Elements(before), {last}, channels);
    }
  }

  lemma {:induction false} NothingInNoMonth(orgs: seq<Organization>, spend: seq<Spend>, channels: set<Channel>)
    ensures Tally(orgs, spend, {}, channels) == EMPTY
    decreases |orgs| + |spend|
  {
    if orgs != [] {
      NothingInNoMonth(orgs[..|orgs| - 1], spend, channels);
    } else if spend != [] {
      NothingInNoMonth(orgs, spend[..|spend| - 1], channels);
    }
  }

  function SumOfRows(rows: seq<ChannelRow>): Bucket {
    if rows == [] then EMPTY else SumOfRows(rows[..|rows| - 1]).Plus(rows[|rows| - 1].bucket)
  }

  /** The channel rows add up to the attributed signups, and with `unknown` to the totals. */
  lemma RowsAddUp(orgs: seq<Organization>, spend: seq<Spend>, months: set<string>)
    ensures var s := SectionOf(orgs, spend, months);
            && SumOfRows(s.channels).signups == s.totals.attributedSignups
            && SumOfRows(s.channels).Plus(Tally(orgs, spend, months, {Unknown})) == s.totals.bucket
  {
    hide Tally;
    var known := Elements(SpendChannels());
    ChannelsComplete(Unknown);
    RowsAddUpTo(orgs, spend, months, |SpendChannels()|);
    assert SectionOf(orgs, spend, months).channels[..|SpendChannels()|] == SectionOf(orgs, spend, months).channels;
    assert SpendChannels()[..|SpendChannels()|] == SpendChannels();
    ChannelsAdd(orgs, spend, months, known, {Unknown});
  }

  lemma {:induction false} RowsAddUpTo(orgs: seq<Organization>, spend: seq<Spend>, months: set<string>, n: nat)
    requires n <= |SpendChannels()|
    ensures SumOfRows(SectionOf(orgs, spend, months).channels[..n]) == Tally(orgs, spend, months, Elements(SpendChannels()[..n]))
  {
    var rows := SectionOf(orgs, spend, months).channels;
    if n == 0 {
      assert Elements(SpendChannels()[..0]) == {};
      NothingOfNoChannel(orgs, spend, months);
    } else {
      RowsAddUpTo(orgs, spend, months, n - 1);
      assert rows[..n][..n - 1] == rows[..n - 1];
      OneMoreChannel(n - 1);
      ChannelsAdd(orgs, spend, months, Elements(SpendChannels()[..n - 1]), {SpendChannels()[n - 1]});
    }
  }

  function Signups(orgs: seq<Organization>, months: set<string>, channels: set<Channel>): set<nat> {
    set i: nat | i < |orgs| && orgs[i].month in months && orgs[i].channel in channels
  }

  function Payers(orgs: seq<Organization>, months: set<string>, channels: set<Channel>): set<nat> {
    set i: nat | i < |orgs| && orgs[i].month in months && orgs[i].channel in channels && orgs[i].paying
  }

  function FoundingPayers(orgs: seq<Organization>, months: set<string>, channels: set<Channel>): set<nat> {
    set i: nat | i < |orgs| && orgs[i].month in months && orgs[i].channel in channels && orgs[i].paying && orgs[i].foundingPaying
  }

  /** A tally counts the organizations of its months and channels, the paying ones among them,
      and the founding ones among those; and adds up the spend, row by row. */
  lemma {:induction false} TallyCounts(orgs: seq<Organization>, spend: seq<Spend>, months: set<string>, channels: set<Channel>)
    ensures var b := Tally(orgs, spend, months, channels);
            && b.signups == |Signups(orgs, months, channels)|
            && b.paying == |Payers(orgs, months, channels)|
            && b.foundingPaying == |FoundingPayers(orgs, months, channels)|
            && (spend == [] ==> b.spend == 0)
            && (spend != [] ==>
                  var s := spend[|spend| - 1];
                  b.spend == Tally(orgs, spend[..|spend| - 1], months, channels).spend
                             + if s.month in months && s.channel in channels then s.amount else 0)
  {
    OrganizationsCount(orgs, months, channels);
    SpendingCountsNobody(orgs, spend, months, channels);
    hide Organizations, Signups, Payers, FoundingPayers;
  }

  lemma {:induction false} SpendingCountsNobody(orgs: seq<Organization>, spend: seq<Spend>, months: set<string>, channels: set<Channel>)
    ensures var b := Spending(spend, months, channels); b.signups == 0 && b.paying == 0 && b.foundingPaying == 0
    ensures Organizations(orgs, months, channels).spend == 0
    decreases |orgs| + |spend|
  {
    if spend != [] {
      SpendingCountsNobody(orgs, spend[..|spend| - 1], months, channels);
    } else if orgs != [] {
      SpendingCountsNobody(orgs[..|orgs| - 1], spend, months, channels);
    }
  }

  lemma {:induction false} OrganizationsCount(orgs: seq<Organization>, months: set<string>, channels: set<Channel>)
    ensures var b := Organizations(orgs, months, channels);
            && b.signups == |Signups(orgs, months, channels)|
            && b.paying == |Payers(orgs, months, channels)|
            && b.foundingPaying == |FoundingPayers(orgs, months, channels)|
    decreases |orgs|
  {
    if orgs != [] {
      OrganizationsCount(orgs[..|orgs| - 1], months, channels);
      SignupsNext(orgs, months, channels);
      PayersNext(orgs, months, channels);
      FoundingPayersNext(orgs, months, channels);
    }
    hide Signups, Payers, FoundingPayers;
  }

  lemma SignupsNext(orgs: seq<Organization>, months: set<string>, channels: set<Channel>)
    ensures Signups([], months, channels) == {}
    ensures orgs != [] ==>
              var n, o := |orgs| - 1, orgs[|orgs| - 1];
              |Signups(orgs, months, channels)| == |Signups(orgs[..n], months, channels)|
                                                   + if o.month in months && o.channel in channels then 1 else 0
  {
    if orgs != [] {
      var n, o := |orgs| - 1, orgs[|orgs| - 1];
      assert Signups(orgs, months, channels) == Signups(orgs[..n], months, channels)
                                                + if o.month in months && o.channel in channels then {n} else {};
    }
  }

  lemma PayersNext(orgs: seq<Organization>, months: set<string>, channels: set<Channel>)
    ensures Payers([], months, channels) == {}
    ensures orgs != [] ==>
              var n, o := |orgs| - 1, orgs[|orgs| - 1];
              |Payers(orgs, months, channels)| == |Payers(orgs[..n], months, channels)|
                                                  + if o.month in months && o.channel in channels && o.paying then 1 else 0
  {
    if orgs != [] {
      var n, o := |orgs| - 1, orgs[|orgs| - 1];
      assert Payers(orgs, months, channels) == Payers(orgs[..n], months, channels)
                                               + if o.month in months && o.channel in channels && o.paying then {n} else {};
    }
  }

  lemma FoundingPayersNext(orgs: seq<Organization>, months: set<string>, channels: set<Channel>)
    ensures FoundingPayers([], months, channels) == {}
    ensures orgs != [] ==>
              var n, o := |orgs| - 1, orgs[|orgs| - 1];
              var counts := o.month in months && o.channel in channels && o.paying && o.foundingPaying;
              |FoundingPayers(orgs, months, channels)| == |FoundingPayers(orgs[..n], months, channels)| + if counts then 1 else 0
  {
    if orgs != [] {
      var n, o := |orgs| - 1, orgs[|orgs| - 1];
      var counts := o.month in months && o.channel in channels && o.paying && o.foundingPaying;
      assert FoundingPayers(orgs, months, channels) == FoundingPayers(orgs[..n], months, channels) + if counts then {n} else {};
    }
  }

  /** A section row by row and in all: the channel of each row in the order of the channels, its
      own tally and cost; the totals of everybody, their cost, and the signups with a channel. */
  lemma SectionExactly(orgs: seq<Organization>, spend: seq<Spend>, months: set<string>, j: nat)
    requires j < |SpendChannels()|
    ensures forall c: Channel :: c in AllChannels()
    ensures var s := SectionOf(orgs, spend, months);
            && |s.channels| == |SpendChannels()| && s.channels[j].channel == SpendChannels()[j]
            && s.channels[j].bucket == Tally(orgs, spend, months, {SpendChannels()[j]})
            && s.channels[j].cac == CacOf(s.channels[j].bucket.spend, s.channels[j].bucket.paying)
            && s.totals.bucket == Tally(orgs, spend, months, AllChannels())
            && s.totals.blendedCac == CacOf(s.totals.bucket.spend, s.totals.bucket.paying)
            && s.totals.attributedSignups == |Signups(orgs, months, AllChannels() - {Unknown})|
  {
    forall c ensures c in AllChannels() {
      ChannelsComplete(c);
    }
    var known := AllChannels() - {Unknown};
    ChannelsAdd(orgs, spend, months, known, {Unknown});
    assert known + {Unknown} == AllChannels();
    TallyCounts(orgs, spend, months, known);
    hide Tally, CacOf, Signups, AllChannels;
  }

  /** The report: a section for every month asked for, in order, one for all of them together,
      and the share of all signups in the window that came with a channel. */
  lemma ReportExactly(months: seq<string>, orgs: seq<Organization>, spend: seq<Spend>, k: nat)
    requires k < |months|
    ensures var r, window := ReportOf(months, orgs, spend), Elements(months);
            && |r.months| == |months| && r.months[k] == (months[k], SectionOf(orgs, spend, {months[k]}))
            && r.overall == SectionOf(orgs, spend, window)
            && r.coverage == RatioOf(|Signups(orgs, window, AllChannels() - {Unknown})|, |Signups(orgs, window, AllChannels())|)
  {
    SectionExactly(orgs, spend, Elements(months), 0);
    TallyCounts(orgs, spend, Elements(months), AllChannels());
    hide SectionOf, Signups, RatioOf, Tally;
  }

  /** Founding payers are payers, and payers signed up, in every cell of the report. */
  lemma {:induction false} PayersSignedUp(orgs: seq<Organization>, spend: seq<Spend>, months: set<string>, channels: set<Channel>)
    ensures var b := Tally(orgs, spend, months, channels);
            0 <= b.foundingPaying <= b.paying <= b.signups
    decreases |orgs| + |spend|
  {
    if orgs != [] {
      PayersSignedUp(orgs[..|orgs| - 1], spend, months, channels);
    } else if spend != [] {
      PayersSignedUp(orgs, spend[..|spend| - 1], months, channels);
    }
  }

  /** One organization taken out of the middle of the input. */
  lemma {:induction false} TakenOut(before: seq<Organization>, o: Organization, after: seq<Organization>, months: set<string>, channels: set<Channel>)
    ensures Organizations(before + [o] + after, months, channels)
         == Organizations(before + after, months, channels).Plus(OfOrganization(o, months, channels))
    decreases |after|
  {
    hide OfOrganization;
    if after == [] {
      assert (before + [o] + after)[..|before|] == before && before + after == before;
    } else {
      var n := |after| - 1;
      TakenOut(before, o, after[..n], months, channels);
      assert (before + [o] + after)[..|before| + 1 + n] == before + [o] + after[..n];
      assert (before + after)[..|before| + n] == before + after[..n];
    }
  }

  lemma {:induction false} SpendTakenOut(before: seq<Spend>, s: Spend, after: seq<Spend>, months: set<string>, channels: set<Channel>)
    ensures Spending(before + [s] + after, months, channels)
         == Spending(before + after, months, channels).Plus(OfSpend(s, months, channels))
    decreases |after|
  {
    hide OfSpend;
    if after == [] {
      assert (before + [s] + after)[..|before|] == before && before + after == before;
    } else {
      var n := |after| - 1;
      SpendTakenOut(before, s, after[..n], months, channels);
      assert (before + [s] + after)[..|before| + 1 + n] == before + [s] + after[..n];
      assert (before + after)[..|before| + n] == before + after[..n];
    }
  }

  /** Rows of other months change nothing, wherever they stand. */
  lemma OutsideNeverCounts(before: seq<Organization>, o: Organization, after: seq<Organization>,
                           spendBefore: seq<Spend>, s: Spend, spendAfter: seq<Spend>, months: set<string>, channels: set<Channel>)
    requires o.month !in months && s.month !in months
    ensures Tally(before + [o] + after, spendBefore + [s] + spendAfter, months, channels)
         == Tally(before + after, spendBefore + spendAfter, months, channels)
  {
    TakenOut(before, o, after, months, channels);
    SpendTakenOut(spendBefore, s, spendAfter, months, channels);
  }

  lemma {:induction false} OrganizationOrder(a: seq<Organization>, b: seq<Organization>, months: set<string>, channels: set<Channel>)
    requires multiset(a) == multiset(b)
    ensures Organizations(a, months, channels) == Organizations(b, months, channels)
    decreases |a|
  {
    if a == [] {
      assert multiset(b) == multiset{};
      assert b == [];
    } else {
      var o := a[|a| - 1];
      assert a == a[..|a| - 1] + [o];
      assert o in multiset(b);
      var j :| 0 <= j < |b| && b[j] == o;
      assert b == b[..j] + [o] + b[j + 1..];
      assert multiset(b[..j] + b[j + 1..]) == multiset(b) - multiset{o} == multiset(a[..|a| - 1]);
      OrganizationOrder(a[..|a| - 1], b[..j] + b[j + 1..], months, channels);
      TakenOut(b[..j], o, b[j + 1..], months, channels);
    }
  }

  lemma {:induction false} SpendOrder(a: seq<Spend>, b: seq<Spend>, months: set<string>, channels: set<Channel>)
    requires multiset(a) == multiset(b)
    ensures Spending(a, months, channels) == Spending(b, months, channels)
    decreases |a|
  {
    if a == [] {
      assert multiset(b) == multiset{};
      assert b == [];
    } else {
      var s := a[|a| - 1];
      assert a == a[..|a| - 1] + [s];
      assert s in multiset(b);
      var j :| 0 <= j < |b| && b[j] == s;
      assert b == b[..j] + [s] + b[j + 1..];
      assert multiset(b[..j] + b[j + 1..]) == multiset(b) - multiset{s} == multiset(a[..|a| - 1]);
      SpendOrder(a[..|a| - 1], b[..j] + b[j + 1..], months, channels);
      SpendTakenOut(b[..j], s, b[j + 1..], months, channels);
    }
  }

  /** The report does not depend on the order of its rows. */
  lemma ReportIgnoresOrder(months: seq<string>, orgs: seq<Organization>, orgs': seq<Organization>, spend: seq<Spend>, spend': seq<Spend>)
    requires multiset(orgs) == multiset(orgs') && multiset(spend) == multiset(spend')
    ensures ReportOf(months, orgs, spend) == ReportOf(months, orgs', spend')
  {
    forall window, channels ensures Tally(orgs, spend, window, channels) == Tally(orgs', spend', window, channels) {
      OrganizationOrder(orgs, orgs', window, channels);
      SpendOrder(spend, spend', window, channels);
    }
    SectionIgnoresOrder(orgs, orgs', spend, spend', Elements(months));
    forall i | 0 <= i < |months| ensures SectionOf(orgs, spend, {months[i]}) == SectionOf(orgs', spend', {months[i]}) {
      SectionIgnoresOrder(orgs, orgs', spend, spend', {months[i]});
    }
  }

  lemma SectionIgnoresOrder(orgs: seq<Organization>, orgs': seq<Organization>, spend: seq<Spend>, spend': seq<Spend>, window: set<string>)
    requires forall channels :: Tally(orgs, spend, window, channels) == Tally(orgs', spend', window, channels)
    ensures SectionOf(orgs, spend, window) == SectionOf(orgs', spend', window)
  {
    assert SectionOf(orgs, spend, window).channels == SectionOf(orgs', spend', window).channels;
  }
}
