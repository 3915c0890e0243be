/** Scatter-gather triage: one analysis per (ticket, role), merged in any order, one report. */
module TriageReport {
  import opened Prelude
  import opened Sorting

  datatype Analysis = Analysis(ticket: string, role: string, comments: string)

  /** What the synthesizer can meet among the values of the merged state: the result of a Send, the tickets
    * dictionary itself, or anything that has no "analysis" in it.
    */
  datatype Value = SendResult(analysis: Analysis) | Tickets(tickets: seq<(string, string)>) | Other

  datatype Report = Report(lines: seq<string>, count: nat)

  // ----- the reduce step, as a specification -----

  predicate Poisoned(v: Value) { v.Tickets? && HasTicket(v.tickets, "analysis") }

  ghost predicate Crashes(values: seq<Value>) { exists v :: v in values && Poisoned(v) }

  /** The analyses found in the state, in the order of its values. */
  function Analyses(values: seq<Value>): seq<Analysis> {
    if values == [] then []
    else
      var last := values[|values| - 1];
      Analyses(values[..|values| - 1]) + (if last.SendResult? then [last.analysis] else [])
  }

  function TicketsOf(xs: seq<Analysis>): seq<string> {
    if xs == [] then [] else TicketsOf(xs[..|xs| - 1]) + [xs[|xs| - 1].ticket]
  }

  /** The entries of `by_ticket[t]`, in arrival order. */
  function Group(xs: seq<Analysis>, t: string): seq<Analysis> {
    if xs == [] then []
    else Group(xs[..|xs| - 1], t) + (if xs[|xs| - 1].ticket == t then [xs[|xs| - 1]] else [])
  }

  function Self(s: string): string { s }

  function RoleOf(a: Analysis): string { a.role }

  function Keys(xs: seq<Analysis>): seq<string> { Sort(Dedupe(TicketsOf(xs)), Self) }

  function Entry(a: Analysis): seq<string> { ["### " + a.role, a.comments, ""] }

  function Entries(group: seq<Analysis>): seq<string> {
    if group == [] then [] else Entries(group[..|group| - 1]) + Entry(group[|group| - 1])
  }

  function Section(xs: seq<Analysis>, t: string): seq<string> {
    ["## " + t] + Entries(Sort(Group(xs, t), RoleOf))
  }

  function Sections(xs: seq<Analysis>, ts: seq<string>): seq<string> {
    if ts == [] then [] else Sections(xs, ts[..|ts| - 1]) + Section(xs, ts[|ts| - 1])
  }

  function Header(): seq<string> { ["# Customer-support triage — summary report", ""] }

  function Render(xs: seq<Analysis>): Report { Report(Header() + Sections(xs, Keys(xs)), |xs|) }

  method Collect(values: seq<Value>) returns (r: Option<seq<Analysis>>)
    ensures r.None? <==> Crashes(values)
    ensures r.Some? ==> r.value == Analyses(values)
  {
    var analyses: seq<Analysis> := [];
    for i := 0 to |values|
      invariant analyses == Analyses(values[..i])
      invariant forall v | v in values[..i] :: !Poisoned(v)
    {
      assert values[..i + 1][..i] == values[..i];
      assert values[i] in values;
      if Poisoned(values[i]) {
        return None;
      }
      if values[i].SendResult? {
        analyses := analyses + [values[i].analysis];
      }
    }
    assert values[..|values|] == values;
    r := Some(analyses);
  }

  method GroupByTicket(analyses: seq<Analysis>) returns (byTicket: map<string, seq<Analysis>>, keys: seq<string>)
    ensures keys == Dedupe(TicketsOf(analyses))
    ensures forall t :: t in byTicket <==> t in TicketsOf(analyses)
    ensures forall t | t in byTicket :: byTicket[t] == Group(analyses, t)
  {
    hide Dedupe;
    byTicket, keys := map[], [];
    assert Dedupe(TicketsOf(analyses[..0])) == [] by { EmptyKeys(); }
    for i := 0 to |analyses|
      invariant keys == Dedupe(TicketsOf(analyses[..i]))
      invariant forall t :: t in byTicket <==> t in TicketsOf(analyses[..i])
      invariant forall t | t in byTicket :: byTicket[t] == Group(analyses[..i], t)
    {
      var a, seen := analyses[i], analyses[..i];
      assert analyses[..i + 1] == seen + [a];
      TicketsExtend(seen, a);
      forall t { GroupExtends(seen, a, t); }
      if a.ticket !in byTicket {
        NoTicketNoGroup(seen, a.ticket);
        keys := keys + [a.ticket];
        byTicket := byTicket[a.ticket := []];
      }
      byTicket := byTicket[a.ticket := byTicket[a.ticket] + [a]];
    }
    assert analyses[..|analyses|] == analyses;
  }

  method RenderSection(t: string, group: seq<Analysis>) returns (lines: seq<string>)
    ensures lines == ["## " + t] + Entries(group)
  {
    lines := ["## " + t];
    for j := 0 to |group|
      invariant lines == ["## " + t] + Entries(group[..j])
    {
      assert group[..j + 1][..j] == group[..j];
      lines := lines + Entry(group[j]);
    }
    assert group[..|group|] == group;
  }

  method RenderAll(analyses: seq<Analysis>, byTicket: map<string, seq<Analysis>>, ts: seq<string>)
    returns (lines: seq<string>)
    requires forall t | t in ts :: t in byTicket && byTicket[t] == Group(analyses, t)
    ensures lines == Header() + Sections(analyses, ts)
  {
    hide Header, Section, Sections, Sort, Group, Entries;
    lines := Header();
    assert Sections(analyses, ts[..0]) == [] by { NoSections(analyses); }
    for i := 0 to |ts|
      invariant lines == Header() + Sections(analyses, ts[..i])
    {
      SectionsExtend(analyses, ts[..i], ts[i]);
      assert ts[..i + 1] == ts[..i] + [ts[i]];
      SectionOf(analyses, ts[i]);
      var section := RenderSection(ts[i], Sort(byTicket[ts[i]], RoleOf));
      lines := lines + section;
    }
    assert ts[..|ts|] == ts;
  }

  /** None when the node crashes: a ticket called "analysis" makes the tickets dictionary look like a result. */
  method Synthesize(values: seq<Value>) returns (r: Option<Report>)
    ensures r.None? <==> Crashes(values)
    ensures r.Some? ==> r.value == Render(Analyses(values))
  {
    hide Header, Crashes, Sort, Group, Sections;
    var collected := Collect(values);
    if collected.None? {
      return None;
    }
    var analyses := collected.value;
    var byTicket, keys := GroupByTicket(analyses);
    var sortedKeys := Sort(keys, Self);
    forall t | t in sortedKeys ensures t in byTicket {
      KeyHasGroup(analyses, t);
    }
    var lines := RenderAll(analyses, byTicket, sortedKeys);
    r := Some(Report(lines, |analyses|));
  }

  lemma SectionOf(xs: seq<Analysis>, t: string)
    ensures Section(xs, t) == ["## " + t] + Entries(Sort(Group(xs, t), RoleOf))
  {
  }

  lemma NoSections(xs: seq<Analysis>)
    ensures Sections(xs, []) == []
  {
  }

  lemma TicketsExtend(xs: seq<Analysis>, a: Analysis)
    ensures TicketsOf(xs + [a]) == TicketsOf(xs) + [a.ticket]
    ensures Dedupe(TicketsOf(xs + [a])) ==
              if a.ticket in TicketsOf(xs) then Dedupe(TicketsOf(xs)) else Dedupe(TicketsOf(xs)) + [a.ticket]
  {
    assert (xs + [a])[..|xs|] == xs;
    var ts := TicketsOf(xs);
    assert (ts + [a.ticket])[..|ts|] == ts;
    DedupeKeepsElements(ts);
  }

  lemma EmptyKeys()
    ensures Dedupe(TicketsOf([])) == []
  {
  }

  lemma GroupExtends(xs: seq<Analysis>, a: Analysis, t: string)
    ensures Group(xs + [a], t) == Group(xs, t) + (if a.ticket == t then [a] else [])
  {
    assert (xs + [a])[..|xs|] == xs;
  }

  lemma SectionsExtend(xs: seq<Analysis>, ts: seq<string>, t: string)
    ensures Sections(xs, ts + [t]) == Sections(xs, ts) + Section(xs, t)
  {
    assert (ts + [t])[..|ts|] == ts;
  }

  lemma {:induction false} NoTicketNoGroup(xs: seq<Analysis>, t: string)
    requires t !in TicketsOf(xs)
    ensures Group(xs, t) == []
  {
    if xs != [] { NoTicketNoGroup(xs[..|xs| - 1], t); }
  }

  lemma KeyHasGroup(xs: seq<Analysis>, t: string)
    requires t in Keys(xs)
    ensures t in TicketsOf(xs)
  {
    SortSorts(Dedupe(TicketsOf(xs)), Self);
    assert t in multiset(Keys(xs));
    DedupeKeepsElements(TicketsOf(xs));
  }

  // ----- the report does not depend on the order in which results land -----

  ghost predicate UniquePairs(xs: seq<Analysis>) {
    forall i, j | 0 <= i < j < |xs| :: xs[i].ticket != xs[j].ticket || xs[i].role != xs[j].role
  }

  lemma {:induction false} GroupCounts(xs: seq<Analysis>, t: string, a: Analysis)
    ensures multiset(Group(xs, t))[a] == if a.ticket == t then multiset(xs)[a] else 0
  {
    if xs != [] {
      GroupCounts(xs[..|xs| - 1], t, a);
      MultisetFront(xs);
    }
  }

  lemma {:induction false} TicketOccurs(xs: seq<Analysis>, t: string)
    ensures t in TicketsOf(xs) <==> exists a :: a in xs && a.ticket == t
  {
    if xs != [] {
      var front, last := xs[..|xs| - 1], xs[|xs| - 1];
      assert xs == front + [last];
      TicketOccurs(front, t);
      if t in TicketsOf(front) {
        var a :| a in front && a.ticket == t;
        assert a in xs;
      }
      if last.ticket == t { assert last in xs; }
    }
  }

  lemma {:induction false} NoDuplicatesCount(s: seq<string>, x: string)
    requires NoDuplicates(s)
    ensures multiset(s)[x] == if x in s then 1 else 0
  {
    if s != [] {
      var front, last := s[..|s| - 1], s[|s| - 1];
      assert s == front + [last];
      NoDuplicatesCount(front, x);
      MultisetFront(s);
    }
  }

  lemma SameKeys(xs: seq<Analysis>, ys: seq<Analysis>)
    requires multiset(xs) == multiset(ys)
    ensures Keys(xs) == Keys(ys)
  {
    var a, b := Dedupe(TicketsOf(xs)), Dedupe(TicketsOf(ys));
    DedupeKeepsElements(TicketsOf(xs));
    DedupeKeepsElements(TicketsOf(ys));
    forall t ensures multiset(a)[t] == multiset(b)[t] {
      TicketOccurs(xs, t);
      TicketOccurs(ys, t);
      assert forall x :: x in xs <==> x in multiset(xs);
      assert forall x :: x in ys <==> x in multiset(ys);
      NoDuplicatesCount(a, t);
      NoDuplicatesCount(b, t);
    }
    assert multiset(a) == multiset(b);
    SortIgnoresOrder(a, b, Self);
  }

  lemma {:induction false} GroupMember(xs: seq<Analysis>, t: string, a: Analysis)
    ensures a in Group(xs, t) <==> a in xs && a.ticket == t
  {
    GroupCounts(xs, t, a);
    assert a in Group(xs, t) <==> a in multiset(Group(xs, t));
    assert a in xs <==> a in multiset(xs);
  }

  lemma {:induction false} GroupHasDistinctRoles(xs: seq<Analysis>, t: string)
    requires UniquePairs(xs)
    ensures DistinctKeys(Group(xs, t), RoleOf)
  {
    if xs != [] {
      var front, last := xs[..|xs| - 1], xs[|xs| - 1];
      GroupHasDistinctRoles(front, t);
      var g := Group(front, t);
      forall i | 0 <= i < |g| && last.ticket == t ensures g[i].role != last.role {
        GroupMember(front, t, g[i]);
        var k :| 0 <= k < |front| && front[k] == g[i];
        assert xs[k] == g[i] && xs[|xs| - 1] == last;
      }
    }
  }

  lemma {:induction false} SameSections(xs: seq<Analysis>, ys: seq<Analysis>, ts: seq<string>)
    requires multiset(xs) == multiset(ys) && UniquePairs(xs)
    ensures Sections(xs, ts) == Sections(ys, ts)
  {
    if ts != [] {
      var t := ts[|ts| - 1];
      SameSections(xs, ys, ts[..|ts| - 1]);
      forall a ensures multiset(Group(xs, t))[a] == multiset(Group(ys, t))[a] {
        GroupCounts(xs, t, a);
        GroupCounts(ys, t, a);
      }
      assert multiset(Group(xs, t)) == multiset(Group(ys, t));
      GroupHasDistinctRoles(xs, t);
      SortIgnoresOrder(Group(xs, t), Group(ys, t), RoleOf);
    }
  }

  /** MAIN RESULT: for any order of arrival the report is the same. */
  lemma ReportIgnoresOrder(xs: seq<Analysis>, ys: seq<Analysis>)
    requires multiset(xs) == multiset(ys) && UniquePairs(xs)
    ensures Render(xs) == Render(ys)
  {
    hide Header;
    SameKeys(xs, ys);
    SameSections(xs, ys, Keys(xs));
    assert |xs| == |multiset(xs)| == |ys|;
  }

  // ----- every analysis is rendered exactly once -----

  /** The analyses in the order in which the report shows them. */
  function Rendered(xs: seq<Analysis>, ts: seq<string>): seq<Analysis> {
    if ts == [] then [] else Rendered(xs, ts[..|ts| - 1]) + Sort(Group(xs, ts[|ts| - 1]), RoleOf)
  }

  lemma {:induction false} RenderedCounts(xs: seq<Analysis>, ts: seq<string>, a: Analysis)
    requires NoDuplicates(ts)
    ensures multiset(Rendered(xs, ts))[a] == if a.ticket in ts then multiset(xs)[a] else 0
  {
    if ts != [] {
      var front, t := ts[..|ts| - 1], ts[|ts| - 1];
      assert ts == front + [t];
      RenderedCounts(xs, front, a);
      SortSorts(Group(xs, t), RoleOf);
      GroupCounts(xs, t, a);
    }
  }

  lemma EveryAnalysisOnce(xs: seq<Analysis>)
    ensures multiset(Rendered(xs, Keys(xs))) == multiset(xs)
  {
    var d := Dedupe(TicketsOf(xs));
    DedupeKeepsElements(TicketsOf(xs));
    SortSorts(d, Self);
    DistinctKeysPermute(d, Keys(xs), Self);
    assert NoDuplicates(Keys(xs));
    forall a ensures multiset(Rendered(xs, Keys(xs)))[a] == multiset(xs)[a] {
      RenderedCounts(xs, Keys(xs), a);
      TicketOccurs(xs, a.ticket);
      assert a.ticket in Keys(xs) <==> a.ticket in multiset(Keys(xs));
      assert a.ticket in d <==> a.ticket in multiset(d);
      assert a in xs <==> a in multiset(xs);
    }
  }

  // ----- and in one order -----

  /** By ticket, then by role. */
  ghost predicate InOrder(s: seq<Analysis>) {
    forall i, j | 0 <= i < j < |s| ::
      if s[i].ticket == s[j].ticket then Leq(s[i].role, s[j].role) else Leq(s[i].ticket, s[j].ticket)
  }

  lemma {:induction false} RenderedTicket(xs: seq<Analysis>, ts: seq<string>, a: Analysis)
    requires a in Rendered(xs, ts)
    ensures a.ticket in ts
  {
    if ts != [] && a !in Rendered(xs, ts[..|ts| - 1]) {
      SortedGroupTicket(xs, ts[|ts| - 1], a);
    } else if ts != [] {
      RenderedTicket(xs, ts[..|ts| - 1], a);
    }
  }

  lemma SortedGroupTicket(xs: seq<Analysis>, t: string, a: Analysis)
    requires a in Sort(Group(xs, t), RoleOf)
    ensures a.ticket == t
  {
    SortSorts(Group(xs, t), RoleOf);
    assert a in multiset(Sort(Group(xs, t), RoleOf));
    GroupMember(xs, t, a);
  }

  lemma JoinInOrder(before: seq<Analysis>, g: seq<Analysis>, t: string)
    requires InOrder(before) && Sorted(g, RoleOf)
    requires forall a | a in g :: a.ticket == t
    requires forall a | a in before :: a.ticket != t && Leq(a.ticket, t)
    ensures InOrder(before + g)
  {
    hide Leq;
    var all, n := before + g, |before|;
    forall i, j | 0 <= i < j < |all|
      ensures
        if all[i].ticket == all[j].ticket then Leq(all[i].role, all[j].role)
        else Leq(all[i].ticket, all[j].ticket)
    {
      if j >= n {
        assert all[j] in g;
        if i >= n {
          assert all[i] in g && Leq(RoleOf(g[i - n]), RoleOf(g[j - n]));
        } else {
          assert all[i] in before;
        }
      }
    }
  }

  lemma {:induction false} RenderedInOrder(xs: seq<Analysis>, ts: seq<string>)
    requires Sorted(ts, Self) && NoDuplicates(ts)
    ensures InOrder(Rendered(xs, ts))
  {
    if ts != [] {
      hide Leq, Sort, Group, InOrder, Rendered;
      var front, n := ts[..|ts| - 1], |ts| - 1;
      var g := Sort(Group(xs, ts[n]), RoleOf);
      RenderedInOrder(xs, front);
      SortSorts(Group(xs, ts[n]), RoleOf);
      forall a | a in g ensures a.ticket == ts[n] { SortedGroupTicket(xs, ts[n], a); }
      forall a | a in Rendered(xs, front) ensures a.ticket != ts[n] && Leq(a.ticket, ts[n]) {
        RenderedTicket(xs, front, a);
        var k :| 0 <= k < |front| && front[k] == a.ticket;
        assert Leq(Self(ts[k]), Self(ts[n])) && ts[k] == front[k];
      }
      JoinInOrder(Rendered(xs, front), g, ts[n]);
      RenderedNext(xs, ts);
    } else {
      assert Rendered(xs, ts) == [];
    }
  }

  lemma RenderedNext(xs: seq<Analysis>, ts: seq<string>)
    requires ts != []
    ensures Rendered(xs, ts) == Rendered(xs, ts[..|ts| - 1]) + Sort(Group(xs, ts[|ts| - 1]), RoleOf)
  {
  }

  ghost function Heading(rs: seq<Analysis>, t: string): seq<string> {
    if rs == [] || rs[|rs| - 1].ticket != t then ["## " + t] else []
  }

  /** One pass over a list of analyses, with a heading wherever the ticket changes. */
  ghost function Typeset(rs: seq<Analysis>): seq<string> {
    if rs == [] then []
    else
      var front, last := rs[..|rs| - 1], rs[|rs| - 1];
      Typeset(front) + Heading(front, last.ticket) + ["### " + last.role, last.comments, ""]
  }

  lemma TypesetNext(rs: seq<Analysis>, a: Analysis)
    ensures Typeset(rs + [a]) == Typeset(rs) + Heading(rs, a.ticket) + Entry(a)
    ensures Entries(rs + [a]) == Entries(rs) + Entry(a)
  {
    hide Heading;
    assert (rs + [a])[..|rs|] == rs;
  }

  lemma {:induction false} TypesetGroup(rs: seq<Analysis>, g: seq<Analysis>, t: string)
    requires g != [] && (forall a | a in g :: a.ticket == t) && Heading(rs, t) == ["## " + t]
    ensures Typeset(rs + g) == Typeset(rs) + (["## " + t] + Entries(g))
  {
    hide Typeset, Entries, Entry, Heading;
    var front, last := g[..|g| - 1], g[|g| - 1];
    assert g == front + [last] && last in g;
    assert rs + g == rs + front + [last];
    TypesetNext(rs + front, last);
    TypesetNext(front, last);
    var h, e := ["## " + t], Entry(last);
    if front == [] {
      assert rs + front == rs;
      assert Entries(front) == [] by { NoEntries(); }
      Regroup(Typeset(rs), h, [], e);
    } else {
      assert front[|front| - 1] in g && forall a | a in front :: a in g;
      TypesetGroup(rs, front, t);
      NoSecondHeading(rs, front, t);
      Regroup(Typeset(rs), h, Entries(front), e);
    }
  }

  lemma Regroup(p: seq<string>, h: seq<string>, m: seq<string>, e: seq<string>)
    ensures p + (h + m) + [] + e == p + (h + (m + e))
    ensures m == [] ==> p + h + e == p + (h + (m + e))
  {
  }

  lemma NoEntries()
    ensures Entries([]) == []
  {
  }

  lemma NoSecondHeading(rs: seq<Analysis>, front: seq<Analysis>, t: string)
    requires front != [] && front[|front| - 1].ticket == t
    ensures Heading(rs + front, t) == []
  {
  }

  lemma {:induction false} SectionsAreTypeset(xs: seq<Analysis>, ts: seq<string>)
    requires NoDuplicates(ts) && forall t | t in ts :: Group(xs, t) != []
    ensures Sections(xs, ts) == Typeset(Rendered(xs, ts))
  {
    if ts != [] {
      hide Sort, Group, Typeset, Entries;
      var front, t := ts[..|ts| - 1], ts[|ts| - 1];
      var before, g := Rendered(xs, front), Sort(Group(xs, t), RoleOf);
      SectionsAreTypeset(xs, front);
      SortSorts(Group(xs, t), RoleOf);
      assert |multiset(g)| == |multiset(Group(xs, t))|;
      forall a | a in g ensures a.ticket == t { SortedGroupTicket(xs, t, a); }
      if before != [] { RenderedTicket(xs, front, before[|before| - 1]); }
      assert Heading(before, t) == ["## " + t];
      TypesetGroup(before, g, t);
    } else {
      assert Rendered(xs, ts) == [];
    }
  }

  lemma HeaderLines()
    ensures Header() == ["# Customer-support triage — summary report", ""]
  {
  }

  lemma TicketHasGroup(xs: seq<Analysis>, t: string)
    requires t in TicketsOf(xs)
    ensures Group(xs, t) != []
  {
    TicketOccurs(xs, t);
    var a :| a in xs && a.ticket == t;
    GroupMember(xs, t, a);
  }

  /** MAIN RESULT: the report is the header and one pass over the analyses sorted by ticket and then by role, each of
    * them shown exactly once under its ticket's only heading.
    */
  lemma ReportIsTypesetting(xs: seq<Analysis>)
    ensures
      var rs := Rendered(xs, Keys(xs));
      && Render(xs) == Report(["# Customer-support triage — summary report", ""] + Typeset(rs), |rs|)
      && multiset(rs) == multiset(xs) && InOrder(rs)
  {
    hide Header, Typeset, InOrder, Sections, Rendered;
    HeaderLines();
    var d := Dedupe(TicketsOf(xs));
    DedupeKeepsElements(TicketsOf(xs));
    SortSorts(d, Self);
    DistinctKeysPermute(d, Keys(xs), Self);
    forall t | t in Keys(xs) ensures Group(xs, t) != [] {
      KeyHasGroup(xs, t);
      TicketHasGroup(xs, t);
    }
    SectionsAreTypeset(xs, Keys(xs));
    RenderedInOrder(xs, Keys(xs));
    EveryAnalysisOnce(xs);
    assert |multiset(Rendered(xs, Keys(xs)))| == |multiset(xs)|;
  }

  // ----- the fan-out that feeds it -----

  /** The Sends for one ticket, in role order; a Send whose agent fails leaves nothing behind. */
  function PerTicket(t: string, roles: seq<string>, reply: (string, string) -> Option<string>): seq<Analysis> {
    if roles == [] then []
    else
      var r := roles[|roles| - 1];
      PerTicket(t, roles[..|roles| - 1], reply)
      + (if reply(t, r).Some? then [Analysis(t, r, reply(t, r).value)] else [])
  }

  /** One Send per (ticket, role). */
  function FanOut(
      tickets: seq<(string, string)>, roles: seq<string>, reply: (string, string) -> Option<string>)
    : seq<Analysis>
  {
    if tickets == [] then []
    else FanOut(tickets[..|tickets| - 1], roles, reply) + PerTicket(tickets[|tickets| - 1].0, roles, reply)
  }

  ghost predicate DistinctIds(tickets: seq<(string, string)>) {
    forall i, j | 0 <= i < j < |tickets| :: tickets[i].0 != tickets[j].0
  }

  ghost predicate AllReply(
      tickets: seq<(string, string)>, roles: seq<string>, reply: (string, string) -> Option<string>)
  {
    forall i, r | 0 <= i < |tickets| && r in roles :: reply(tickets[i].0, r).Some?
  }

  lemma {:induction false} PerTicketMember(
      t: string, roles: seq<string>, reply: (string, string) -> Option<string>, a: Analysis)
    ensures a in PerTicket(t, roles, reply) <==>
              a.ticket == t && a.role in roles && reply(t, a.role) == Some(a.comments)
  {
    if roles != [] {
      var front, r := roles[..|roles| - 1], roles[|roles| - 1];
      assert roles == front + [r];
      PerTicketMember(t, front, reply, a);
    }
  }

  lemma {:induction false} PerTicketUnique(t: string, roles: seq<string>, reply: (string, string) -> Option<string>)
    requires NoDuplicates(roles)
    ensures UniquePairs(PerTicket(t, roles, reply))
    ensures (forall r | r in roles :: reply(t, r).Some?) ==> |PerTicket(t, roles, reply)| == |roles|
  {
    if roles != [] {
      var front, r := roles[..|roles| - 1], roles[|roles| - 1];
      assert roles == front + [r];
      PerTicketUnique(t, front, reply);
      var p := PerTicket(t, front, reply);
      forall i | 0 <= i < |p| ensures p[i].role != r {
        PerTicketMember(t, front, reply, p[i]);
      }
    }
  }

  predicate HasTicket(tickets: seq<(string, string)>, t: string) { exists i | 0 <= i < |tickets| :: tickets[i].0 == t }

  /** The fan-out is exactly the cartesian product, restricted to the Sends that succeeded. */
  lemma {:induction false} FanOutMember(
      tickets: seq<(string, string)>, roles: seq<string>, reply: (string, string) -> Option<string>, a: Analysis)
    ensures a in FanOut(tickets, roles, reply) <==>
              HasTicket(tickets, a.ticket) && a.role in roles && reply(a.ticket, a.role) == Some(a.comments)
  {
    if tickets != [] {
      var front, t := tickets[..|tickets| - 1], tickets[|tickets| - 1].0;
      FanOutMember(front, roles, reply, a);
      PerTicketMember(t, roles, reply, a);
      assert forall i | 0 <= i < |front| :: front[i] == tickets[i];
      assert HasTicket(tickets, a.ticket) <==> HasTicket(front, a.ticket) || a.ticket == t;
    }
  }

  lemma UniquePairsJoin(f: seq<Analysis>, p: seq<Analysis>, t: string)
    requires UniquePairs(f) && UniquePairs(p)
    requires forall a | a in f :: a.ticket != t
    requires forall a | a in p :: a.ticket == t
    ensures UniquePairs(f + p)
  {
    forall i, j | 0 <= i < |f| && 0 <= j < |p| ensures f[i].ticket != p[j].ticket {
      assert f[i] in f && p[j] in p;
    }
  }

  lemma {:induction false} FanOutUnique(
      tickets: seq<(string, string)>, roles: seq<string>, reply: (string, string) -> Option<string>)
    requires DistinctIds(tickets) && NoDuplicates(roles)
    ensures UniquePairs(FanOut(tickets, roles, reply))
  {
    if tickets != [] {
      var front, t := tickets[..|tickets| - 1], tickets[|tickets| - 1].0;
      FanOutUnique(front, roles, reply);
      PerTicketUnique(t, roles, reply);
      forall a | a in FanOut(front, roles, reply) ensures a.ticket != t { FanOutMember(front, roles, reply, a); }
      forall a | a in PerTicket(t, roles, reply) ensures a.ticket == t { PerTicketMember(t, roles, reply, a); }
      UniquePairsJoin(FanOut(front, roles, reply), PerTicket(t, roles, reply), t);
    }
  }

  lemma {:induction false} FanOutSize(
      tickets: seq<(string, string)>, roles: seq<string>, reply: (string, string) -> Option<string>)
    requires NoDuplicates(roles)
    requires AllReply(tickets, roles, reply)
    ensures |FanOut(tickets, roles, reply)| == |tickets| * |roles|
  {
    if tickets != [] {
      FanOutSize(tickets[..|tickets| - 1], roles, reply);
      PerTicketUnique(tickets[|tickets| - 1].0, roles, reply);
      assert (|tickets| - 1) * |roles| + |roles| == |tickets| * |roles|;
    }
  }

  lemma {:induction false} PerTicketAt(
      t: string, roles: seq<string>, reply: (string, string) -> Option<string>, j: nat)
    requires j < |roles| && forall r | r in roles :: reply(t, r).Some?
    ensures |PerTicket(t, roles, reply)| == |roles|
    ensures PerTicket(t, roles, reply)[j] == Analysis(t, roles[j], reply(t, roles[j]).value)
  {
    var front := roles[..|roles| - 1];
    assert roles == front + [roles[|roles| - 1]];
    if front == [] {
      assert PerTicket(t, front, reply) == [];
    } else {
      PerTicketAt(t, front, reply, if j < |front| then j else 0);
    }
  }

  lemma PerTicketFrom(tickets: seq<(string, string)>, roles: seq<string>, reply: (string, string) -> Option<string>)
    requires tickets != []
    ensures FanOut(tickets, roles, reply)
         == FanOut(tickets[..|tickets| - 1], roles, reply) + PerTicket(tickets[|tickets| - 1].0, roles, reply)
    ensures FanOut([], roles, reply) == []
  {
  }

  /** In which order the Sends stand: ticket by ticket, and within a ticket role by role. */
  lemma {:induction false} FanOutAt(
      tickets: seq<(string, string)>, roles: seq<string>, reply: (string, string) -> Option<string>, i: nat, j: nat)
    requires i < |tickets| && j < |roles| && AllReply(tickets, roles, reply)
    ensures 0 <= i * |roles| + j < |tickets| * |roles| == |FanOut(tickets, roles, reply)|
    ensures
      var t, r := tickets[i].0, roles[j];
      r in roles && FanOut(tickets, roles, reply)[i * |roles| + j] == Analysis(t, r, reply(t, r).value)
  {
    var n := |tickets| - 1;
    var front := tickets[..n];
    hide FanOut;
    PerTicketFrom(tickets, roles, reply);
    PerTicketAt(tickets[n].0, roles, reply, j);
    assert (n + 1) * |roles| == n * |roles| + |roles|;
    if n == 0 {
      assert front == [];
    } else {
      FanOutAt(front, roles, reply, if i < n then i else 0, j);
    }
  }

  // ----- the whole graph -----

  function Wrap(xs: seq<Analysis>): seq<Value> {
    if xs == [] then [] else Wrap(xs[..|xs| - 1]) + [SendResult(xs[|xs| - 1])]
  }

  /** The merged state when `synthesize` runs: the tickets, values without analyses, and the results that landed. */
  function Merged(tickets: seq<(string, string)>, others: nat, results: seq<Analysis>): seq<Value> {
    [Tickets(tickets)] + seq(others, i => Other) + Wrap(results)
  }

  lemma {:induction false} AnalysesCount(values: seq<Value>, a: Analysis)
    ensures multiset(Analyses(values))[a] == multiset(values)[SendResult(a)]
  {
    if values != [] {
      AnalysesCount(values[..|values| - 1], a);
      MultisetFront(values);
    }
  }

  lemma {:induction false} WrapCount(xs: seq<Analysis>, v: Value)
    ensures multiset(Wrap(xs))[v] == if v.SendResult? then multiset(xs)[v.analysis] else 0
  {
    if xs != [] {
      WrapCount(xs[..|xs| - 1], v);
      MultisetFront(xs);
    }
  }

  lemma MergedCount(tickets: seq<(string, string)>, others: nat, results: seq<Analysis>, a: Analysis)
    ensures multiset(Merged(tickets, others, results))[SendResult(a)] == multiset(results)[a]
  {
    var rest := seq(others, i => Other);
    assert SendResult(a) !in rest;
    WrapCount(results, SendResult(a));
    assert multiset(Merged(tickets, others, results))
        == multiset{Tickets(tickets)} + multiset(rest) + multiset(Wrap(results));
  }

  lemma PoisonedIff(tickets: seq<(string, string)>, others: nat, results: seq<Analysis>)
    ensures Crashes(Merged(tickets, others, results)) <==> HasTicket(tickets, "analysis")
  {
    var m := Merged(tickets, others, results);
    assert m[0] == Tickets(tickets);
    assert Poisoned(m[0]) <==> HasTicket(tickets, "analysis");
    forall v | v in m && v.Tickets? ensures v == Tickets(tickets) {
      WrapCount(results, v);
      assert v in Wrap(results) <==> v in multiset(Wrap(results));
    }
  }

  /** One ticket with that name is enough, whatever else is in the state. */
  lemma TicketCalledAnalysisCrashes(message: string, others: nat, results: seq<Analysis>)
    ensures Crashes(Merged([("analysis", message)], others, results))
  {
    var tickets := [("analysis", message)];
    assert tickets[0].0 == "analysis";
    PoisonedIff(tickets, others, results);
  }

  lemma LandedAnalyses(tickets: seq<(string, string)>, others: nat, results: seq<Analysis>, values: seq<Value>)
    requires multiset(values) == multiset(Merged(tickets, others, results))
    ensures multiset(Analyses(values)) == multiset(results)
  {
    forall a ensures multiset(Analyses(values))[a] == multiset(results)[a] {
      AnalysesCount(values, a);
      MergedCount(tickets, others, results, a);
    }
  }

  lemma SamePoison(values: seq<Value>, m: seq<Value>)
    requires multiset(values) == multiset(m)
    ensures Crashes(values) <==> Crashes(m)
  {
    assert forall v :: v in values <==> v in multiset(values);
    assert forall v :: v in m <==> v in multiset(m);
  }

  /** MAIN RESULT: whatever the order in which the Sends' results end up among the state's values, the synthesizer
    * renders the report of the fan-out itself; it crashes if and only if a ticket is called "analysis".
    */
  lemma TriageIsDeterministic(
      tickets: seq<(string, string)>, roles: seq<string>, reply: (string, string) -> Option<string>, others: nat,
      values: seq<Value>)
    requires DistinctIds(tickets) && NoDuplicates(roles)
    requires multiset(values) == multiset(Merged(tickets, others, FanOut(tickets, roles, reply)))
    ensures Render(Analyses(values)) == Render(FanOut(tickets, roles, reply))
    ensures Crashes(values) <==> HasTicket(tickets, "analysis")
    ensures AllReply(tickets, roles, reply) ==>
              Render(Analyses(values)).count == |tickets| * |roles|
  {
    hide Header, FanOut, Merged, Crashes, AllReply, Analyses, UniquePairs;
    var results := FanOut(tickets, roles, reply);
    LandedAnalyses(tickets, others, results, values);
    FanOutUnique(tickets, roles, reply);
    ReportIgnoresOrder(results, Analyses(values));
    PoisonedIff(tickets, others, results);
    SamePoison(values, Merged(tickets, others, results));
    if AllReply(tickets, roles, reply) {
      FanOutSize(tickets, roles, reply);
    }
  }
}
