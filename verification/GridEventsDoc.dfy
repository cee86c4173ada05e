/**
 * The grid events documentation builder: it merges the events declared by
 * `GridEventLookup` in the three grid packages into one dictionary, links the
 * premium grid's `GridEventListener` props to their events, and lists the
 * result sorted by event name.
 *
 * The TypeScript checker, the JSDoc tag reader and the markdown helpers are
 * outside the model: what they yield for each symbol is part of the input.
 */
module GridEventsDoc {
  import opened Wrappers
  import ObjectKeys

  type ProjectName = string

  /** `GRID_PROJECTS`, in the order the projects are scanned. */
  const GridProjects: seq<ProjectName> := ["x-data-grid", "x-data-grid-pro", "x-data-grid-premium"]

  /** What the checker yields for an event's property-signature declaration (already rendered). */
  datatype EventDeclaration = EventDeclaration(description: string, params: Option<string>, eventType: Option<string>)

  /** A property of `GridEventLookup`: its name, its `@ignore` tag and its declaration, if it is a property signature. */
  datatype EventSymbol = EventSymbol(name: string, ignore: bool, declaration: Option<EventDeclaration>)

  /** One entry of the `events` dictionary. */
  datatype EventDoc = EventDoc(
    name: string,
    description: string,
    params: Option<string>,
    event: string,
    projects: seq<ProjectName>,
    componentProp: Option<string>)

  /** A prop of `DataGridPremiumProps`: its name, its `@ignore` tag and, when its type is `GridEventListener<'…'>`, the literal's text. */
  datatype PropSymbol = PropSymbol(escapedName: string, ignore: bool, listenerLiteral: Option<string>)

  type Events = map<string, EventDoc>

  /** `` `MuiEvent<${eventParams.event ?? '{}'}>` ``. */
  function EventTypeText(eventType: Option<string>): (r: string)
    ensures eventType.None? ==> r == "MuiEvent<{}>"
    ensures eventType.Some? ==> r == "MuiEvent<" + eventType.value + ">"
  {
    "MuiEvent<" + eventType.GetOr("{}") + ">"
  }

  /** The entry created at the first sighting of an event, in `project`. */
  function NewEntry(project: ProjectName, name: string, decl: EventDeclaration): EventDoc
  {
    EventDoc(name, decl.description, decl.params, EventTypeText(decl.eventType), [project], None)
  }

  /** One call of the inner `forEach`: the event `sym` seen in `project`. */
  function AddSighting(events: Events, project: ProjectName, sym: EventSymbol): Events
  {
    if sym.ignore then events
    else if sym.name in events then
      events[sym.name := events[sym.name].(projects := events[sym.name].projects + [project])]
    else if sym.declaration.None? then events
    else events[sym.name := NewEntry(project, sym.name, sym.declaration.value)]
  }

  /** The inner `forEach` over the events of one project. */
  function AddProject(events: Events, project: ProjectName, syms: seq<EventSymbol>): Events
    decreases |syms|
  {
    if syms == [] then events
    else AddProject(AddSighting(events, project, syms[0]), project, syms[1..])
  }

  /** The outer `forEach` over the projects, each with the events its checker lists. */
  function Collect(events: Events, projects: seq<(ProjectName, seq<EventSymbol>)>): Events
    decreases |projects|
  {
    if projects == [] then events
    else Collect(AddProject(events, projects[0].0, projects[0].1), projects[1..])
  }

  /** `literalTypeNode.literal.getText().replace(/'/g, '')`: every single quote removed. */
  function RemoveQuotes(s: string): (r: string)
    ensures '\'' !in r
    ensures '\'' !in s ==> r == s
  {
    if s == [] then []
    else (if s[0] == '\'' then [] else [s[0]]) + RemoveQuotes(s[1..])
  }

  /** A quoted event name loses exactly its quotes. */
  lemma QuotedNameUnquoted(name: string)
    requires '\'' !in name
    ensures RemoveQuotes("'" + name + "'") == name
  {
    var s := "'" + name + "'";
    assert s[1..] == name + "'";
    RemoveQuotesAppend(name, "'");
  }

  lemma {:induction false} RemoveQuotesAppend(a: string, b: string)
    ensures RemoveQuotes(a + b) == RemoveQuotes(a) + RemoveQuotes(b)
  {
    if a == [] {
      assert a + b == b;
    } else {
      assert (a + b)[0] == a[0] && (a + b)[1..] == a[1..] + b;
      RemoveQuotesAppend(a[1..], b);
    }
  }

  /** The prop links event `name`: it is not ignored and its listener literal names that event. */
  predicate Links(prop: PropSymbol, name: string)
  {
    !prop.ignore && prop.listenerLiteral.Some? && RemoveQuotes(prop.listenerLiteral.value) == name
  }

  /** One call of the prop-linking `forEach`. */
  function LinkProp(events: Events, prop: PropSymbol): Events
  {
    if prop.ignore || prop.listenerLiteral.None? then events
    else
      var eventName := RemoveQuotes(prop.listenerLiteral.value);
      if eventName in events then events[eventName := events[eventName].(componentProp := Some(prop.escapedName))]
      else events
  }

  function LinkProps(events: Events, props: seq<PropSymbol>): Events
  {
    if props == [] then events else LinkProps(LinkProp(events, props[0]), props[1..])
  }

  // ---------------------------------------------------------------------------
  // The dictionary, one event name at a time

  function Lookup(events: Events, name: string): Option<EventDoc>
  {
    if name in events then Some(events[name]) else None
  }

  /** The property named `name` among a project's events, if any. */
  function SymFor(syms: seq<EventSymbol>, name: string): (r: Option<EventSymbol>)
    ensures r.Some? ==> r.value in syms && r.value.name == name
    ensures r.None? <==> forall k :: 0 <= k < |syms| ==> syms[k].name != name
  {
    if syms == [] then None
    else if syms[0].name == name then Some(syms[0])
    else SymFor(syms[1..], name)
  }

  /** `getProperties()` yields each property name once. */
  predicate DistinctNames(syms: seq<EventSymbol>)
  {
    forall i, j :: 0 <= i < j < |syms| ==> syms[i].name != syms[j].name
  }

  /** The entry for one event name after one project, given the entry before it. */
  function EntryAfter(entry: Option<EventDoc>, project: ProjectName, sym: Option<EventSymbol>): Option<EventDoc>
  {
    if sym.None? || sym.value.ignore then entry
    else if entry.Some? then Some(entry.value.(projects := entry.value.projects + [project]))
    else if sym.value.declaration.None? then None
    else Some(NewEntry(project, sym.value.name, sym.value.declaration.value))
  }

  /** Scanning a project changes the entry of `name` only through the project's own property of that name. */
  lemma {:induction false} AddProjectAt(events: Events, project: ProjectName, syms: seq<EventSymbol>, name: string)
    requires DistinctNames(syms)
    ensures Lookup(AddProject(events, project, syms), name) == EntryAfter(Lookup(events, name), project, SymFor(syms, name))
    decreases |syms|
  {
    if syms != [] {
      var next := AddSighting(events, project, syms[0]);
      AddProjectAt(next, project, syms[1..], name);
      if syms[0].name == name {
        assert SymFor(syms[1..], name).None? by {
          forall k | 0 <= k < |syms[1..]| ensures syms[1..][k].name != name {
            assert syms[1..][k] == syms[k + 1];
          }
        }
      }
    }
  }

  /** Projects whose checker lists `name` without `@ignore`. */
  predicate Sighted(syms: seq<EventSymbol>, name: string)
  {
    SymFor(syms, name).Some? && !SymFor(syms, name).value.ignore
  }

  /** A project whose sighting of `name` can create its entry: not ignored and a property signature. */
  predicate Creates(syms: seq<EventSymbol>, name: string)
  {
    Sighted(syms, name) && SymFor(syms, name).value.declaration.Some?
  }

  /** The names of the projects that list `name` without `@ignore`, in scanning order. */
  function SightedIn(projects: seq<(ProjectName, seq<EventSymbol>)>, name: string): seq<ProjectName>
  {
    if projects == [] then []
    else (if Sighted(projects[0].1, name) then [projects[0].0] else []) + SightedIn(projects[1..], name)
  }

  predicate AllDistinct(projects: seq<(ProjectName, seq<EventSymbol>)>)
  {
    forall i :: 0 <= i < |projects| ==> DistinctNames(projects[i].1)
  }

  /** The first project that creates the entry of `name`, if any. */
  function FirstCreation(projects: seq<(ProjectName, seq<EventSymbol>)>, name: string): (r: Option<nat>)
    ensures r.None? <==> forall k :: 0 <= k < |projects| ==> !Creates(projects[k].1, name)
    ensures r.Some? ==> r.value < |projects| && Creates(projects[r.value].1, name)
                        && forall k :: 0 <= k < r.value ==> !Creates(projects[k].1, name)
  {
    if projects == [] then None
    else if Creates(projects[0].1, name) then Some(0)
    else
      var rest := FirstCreation(projects[1..], name);
      if rest.None? then None
      else
        assert forall k :: 1 <= k < rest.value + 1 ==> projects[k] == projects[1..][k - 1];
        Some(rest.value + 1)
  }

  lemma AllDistinctTail(projects: seq<(ProjectName, seq<EventSymbol>)>)
    requires projects != [] && AllDistinct(projects)
    ensures AllDistinct(projects[1..])
  {
    forall i | 0 <= i < |projects[1..]| ensures DistinctNames(projects[1..][i].1) {
      assert projects[1..][i] == projects[i + 1];
    }
  }

  /** An entry that exists before the scan gains exactly the projects that list its event without `@ignore`. */
  lemma {:induction false} CollectExisting(events: Events, projects: seq<(ProjectName, seq<EventSymbol>)>, name: string)
    requires AllDistinct(projects)
    requires name in events
    ensures Lookup(Collect(events, projects), name)
         == Some(events[name].(projects := events[name].projects + SightedIn(projects, name)))
    decreases |projects|
  {
    if projects == [] {
      assert events[name].projects + [] == events[name].projects;
    } else {
      var next := AddProject(events, projects[0].0, projects[0].1);
      AddProjectAt(events, projects[0].0, projects[0].1, name);
      AllDistinctTail(projects);
      var added := if Sighted(projects[0].1, name) then [projects[0].0] else [];
      assert next[name] == events[name].(projects := events[name].projects + added);
      CollectExisting(next, projects[1..], name);
      assert events[name].projects + SightedIn(projects, name)
          == events[name].projects + added + SightedIn(projects[1..], name);
    }
  }

  /**
   * An event without an entry before the scan gets one exactly when some project
   * creates it; the first such project supplies the description, params and event
   * type, and it and every later project listing the event make up `projects`.
   */
  lemma {:induction false} CollectAbsent(events: Events, projects: seq<(ProjectName, seq<EventSymbol>)>, name: string)
    requires AllDistinct(projects)
    requires name !in events
    ensures Lookup(Collect(events, projects), name)
         == match FirstCreation(projects, name)
            case None => None
            case Some(c) =>
              var decl := SymFor(projects[c].1, name).value.declaration.value;
              Some(NewEntry(projects[c].0, name, decl).(projects := [projects[c].0] + SightedIn(projects[c + 1..], name)))
    decreases |projects|
  {
    if projects != [] {
      var next := AddProject(events, projects[0].0, projects[0].1);
      AddProjectAt(events, projects[0].0, projects[0].1, name);
      AllDistinctTail(projects);
      if Creates(projects[0].1, name) {
        CreatedByFirst(events, projects, name);
      } else {
        assert name !in next;
        CollectAbsent(next, projects[1..], name);
        var rest := FirstCreation(projects[1..], name);
        if rest.Some? {
          var c := rest.value + 1;
          assert projects[c] == projects[1..][rest.value];
          assert projects[c + 1..] == projects[1..][rest.value + 1..];
        }
      }
    }
  }

  /** When the first project creates the entry, the later ones that list the event are appended to it. */
  lemma CreatedByFirst(events: Events, projects: seq<(ProjectName, seq<EventSymbol>)>, name: string)
    requires AllDistinct(projects) && projects != [] && Creates(projects[0].1, name)
    requires name !in events
    ensures Lookup(Collect(events, projects), name)
         == Some(NewEntry(projects[0].0, name, SymFor(projects[0].1, name).value.declaration.value)
                 .(projects := [projects[0].0] + SightedIn(projects[1..], name)))
  {
    var next := AddProject(events, projects[0].0, projects[0].1);
    AddProjectAt(events, projects[0].0, projects[0].1, name);
    AllDistinctTail(projects);
    var decl := SymFor(projects[0].1, name).value.declaration.value;
    assert next[name] == NewEntry(projects[0].0, name, decl);
    CollectExisting(next, projects[1..], name);
  }

  /** The projects that list an event, in scanning order: a subsequence of the scanned projects. */
  lemma {:induction false} SightedInKeepsOrder(projects: seq<(ProjectName, seq<EventSymbol>)>, name: string)
    ensures IsSubsequence(SightedIn(projects, name), Names(projects))
  {
    if projects != [] {
      SightedInKeepsOrder(projects[1..], name);
      var rest := SightedIn(projects[1..], name);
      assert Names(projects)[1..] == Names(projects[1..]);
      if Sighted(projects[0].1, name) {
        assert SightedIn(projects, name) == [projects[0].0] + rest;
        assert ([projects[0].0] + rest)[1..] == rest;
      } else {
        assert SightedIn(projects, name) == rest;
        if rest != [] {
          assert IsSubsequence(rest, Names(projects)[1..]);
        }
      }
    }
  }

  function Names(projects: seq<(ProjectName, seq<EventSymbol>)>): (r: seq<ProjectName>)
    ensures |r| == |projects|
    ensures forall k :: 0 <= k < |r| ==> r[k] == projects[k].0
  {
    seq(|projects|, k requires 0 <= k < |projects| => projects[k].0)
  }

  /** `a` is `b` with some elements left out, order kept. */
  predicate IsSubsequence<T(==)>(a: seq<T>, b: seq<T>)
    decreases |b|
  {
    if a == [] then true
    else if b == [] then false
    else (a[0] == b[0] && IsSubsequence(a[1..], b[1..])) || IsSubsequence(a, b[1..])
  }

  /** Every element of a subsequence is an element of the whole. */
  lemma {:induction false} SubsequenceMembers<T>(a: seq<T>, b: seq<T>)
    requires IsSubsequence(a, b)
    ensures forall x :: x in a ==> x in b
    decreases |b|
  {
    if a != [] {
      if a[0] == b[0] && IsSubsequence(a[1..], b[1..]) {
        SubsequenceMembers(a[1..], b[1..]);
        assert forall x :: x in a ==> x == a[0] || x in a[1..];
      } else {
        SubsequenceMembers(a, b[1..]);
      }
    }
  }

  /** A subsequence of a list without repetitions has none either. */
  lemma {:induction false} SubsequenceDistinct<T>(a: seq<T>, b: seq<T>)
    requires IsSubsequence(a, b)
    requires forall i, j :: 0 <= i < j < |b| ==> b[i] != b[j]
    ensures forall i, j :: 0 <= i < j < |a| ==> a[i] != a[j]
    decreases |b|
  {
    if a != [] {
      assert forall i, j :: 0 <= i < j < |b[1..]| ==> b[1..][i] != b[1..][j] by {
        forall i, j | 0 <= i < j < |b[1..]| ensures b[1..][i] != b[1..][j] {
          assert b[1..][i] == b[i + 1] && b[1..][j] == b[j + 1];
        }
      }
      if a[0] == b[0] && IsSubsequence(a[1..], b[1..]) {
        SubsequenceDistinct(a[1..], b[1..]);
        SubsequenceMembers(a[1..], b[1..]);
        forall i, j | 0 <= i < j < |a| ensures a[i] != a[j] {
          if i == 0 {
            assert a[j] == a[1..][j - 1];
            assert a[j] in b[1..];
          } else {
            assert a[i] == a[1..][i - 1] && a[j] == a[1..][j - 1];
          }
        }
      } else {
        SubsequenceDistinct(a, b[1..]);
      }
    }
  }

  /** A subsequence of a suffix is a subsequence of the whole. */
  lemma {:induction false} SubsequenceOfSuffix<T>(a: seq<T>, b: seq<T>, k: nat)
    requires k <= |b| && IsSubsequence(a, b[k..])
    ensures IsSubsequence(a, b)
    decreases k
  {
    if k > 0 {
      assert b[k - 1..][1..] == b[k..];
      if a != [] {
        assert IsSubsequence(a, b[k - 1..]);
      }
      SubsequenceOfSuffix(a, b, k - 1);
    }
  }

  /**
   * The `projects` list of every documented event follows `GRID_PROJECTS`
   * order and names each project at most once.
   */
  lemma GridEntryProjects(projectEvents: map<ProjectName, seq<EventSymbol>>, name: string)
    requires forall p :: p in GridProjects ==> p in projectEvents
    requires AllDistinct(GridProjectEvents(projectEvents))
    requires name in Collect(map[], GridProjectEvents(projectEvents))
    ensures var projects := Collect(map[], GridProjectEvents(projectEvents))[name].projects;
            && IsSubsequence(projects, GridProjects)
            && forall i, j :: 0 <= i < j < |projects| ==> projects[i] != projects[j]
  {
    var projects := Collect(map[], GridProjectEvents(projectEvents))[name].projects;
    EntryProjectsInGridOrder(projectEvents, name);
    SubsequenceDistinct(projects, GridProjects);
  }

  lemma EntryProjectsInGridOrder(projectEvents: map<ProjectName, seq<EventSymbol>>, name: string)
    requires forall p :: p in GridProjects ==> p in projectEvents
    requires AllDistinct(GridProjectEvents(projectEvents))
    requires name in Collect(map[], GridProjectEvents(projectEvents))
    ensures IsSubsequence(Collect(map[], GridProjectEvents(projectEvents))[name].projects, GridProjects)
  {
    var ps := GridProjectEvents(projectEvents);
    CollectAbsent(map[], ps, name);
    var c := FirstCreation(ps, name).value;
    var later := SightedIn(ps[c + 1..], name);
    var projects := Collect(map[], ps)[name].projects;
    assert projects == [GridProjects[c]] + later;
    SightedInKeepsOrder(ps[c + 1..], name);
    assert Names(ps[c + 1..]) == GridProjects[c + 1..];
    assert GridProjects[c..][1..] == GridProjects[c + 1..];
    assert IsSubsequence(projects, GridProjects[c..]);
    SubsequenceOfSuffix(projects, GridProjects, c);
  }

  /** An `@ignore` tag keeps a project from creating or extending an entry. */
  lemma IgnoredSightingChangesNothing(entry: Option<EventDoc>, project: ProjectName, sym: EventSymbol)
    requires sym.ignore
    ensures EntryAfter(entry, project, Some(sym)) == entry
  {
  }

  /** A first sighting without a property-signature declaration is skipped. */
  lemma UndeclaredFirstSightingSkipped(project: ProjectName, sym: EventSymbol)
    requires !sym.ignore && sym.declaration.None?
    ensures EntryAfter(None, project, Some(sym)).None?
  {
  }

  /** A later sighting only appends the project; the first project's description, params and event type stay. */
  lemma LaterSightingAppendsProject(entry: EventDoc, project: ProjectName, sym: EventSymbol)
    requires !sym.ignore
    ensures EntryAfter(Some(entry), project, Some(sym))
         == Some(entry.(projects := entry.projects + [project]))
  {
  }

  // ---------------------------------------------------------------------------
  // Prop linking, one event name at a time

  /** Linking props never creates or removes entries, and only ever sets `componentProp`. */
  lemma {:induction false} LinkPropsPreserves(events: Events, props: seq<PropSymbol>)
    ensures LinkProps(events, props).Keys == events.Keys
    ensures forall n :: n in events ==>
      LinkProps(events, props)[n].(componentProp := events[n].componentProp) == events[n]
  {
    if props != [] {
      LinkPropsPreserves(LinkProp(events, props[0]), props[1..]);
    }
  }

  /** An entry no prop links to keeps its `componentProp`. */
  lemma {:induction false} LinkPropsUnlinked(events: Events, props: seq<PropSymbol>, name: string)
    requires forall i :: 0 <= i < |props| ==> !Links(props[i], name)
    ensures Lookup(LinkProps(events, props), name) == Lookup(events, name)
  {
    if props != [] {
      LinkPropsUnlinked(LinkProp(events, props[0]), props[1..], name);
    }
  }

  /** The last prop that links an existing entry gives it its `componentProp`. */
  lemma {:induction false} LinkPropsLastWins(events: Events, props: seq<PropSymbol>, name: string, i: nat)
    requires name in events
    requires i < |props| && Links(props[i], name)
    requires forall j :: i < j < |props| ==> !Links(props[j], name)
    ensures name in LinkProps(events, props)
    ensures LinkProps(events, props)[name].componentProp == Some(props[i].escapedName)
  {
    var next := LinkProp(events, props[0]);
    if i == 0 {
      LinkPropsUnlinked(next, props[1..], name);
    } else {
      LinkPropsLastWins(next, props[1..], name, i - 1);
    }
  }

  // ---------------------------------------------------------------------------
  // Sorting by name

  /** Code-unit lexicographic order, the stand-in for `a.localeCompare(b) <= 0`. */
  predicate LexLe(a: string, b: string)
  {
    if a == [] then true
    else if b == [] then false
    else if a[0] != b[0] then a[0] < b[0]
    else LexLe(a[1..], b[1..])
  }

  lemma {:induction false} LexLeTotal(a: string, b: string)
    ensures LexLe(a, b) || LexLe(b, a)
  {
    if a != [] && b != [] && a[0] == b[0] {
      LexLeTotal(a[1..], b[1..]);
    }
  }

  lemma {:induction false} LexLeAntisymmetric(a: string, b: string)
    requires LexLe(a, b) && LexLe(b, a)
    ensures a == b
  {
    if a != [] && b != [] {
      LexLeAntisymmetric(a[1..], b[1..]);
      assert a == [a[0]] + a[1..] && b == [b[0]] + b[1..];
    }
  }

  lemma {:induction false} LexLeTransitive(a: string, b: string, c: string)
    requires LexLe(a, b) && LexLe(b, c)
    ensures LexLe(a, c)
  {
    if a != [] && b != [] && c != [] && a[0] == b[0] && b[0] == c[0] {
      LexLeTransitive(a[1..], b[1..], c[1..]);
    }
  }

  predicate SortedByName(docs: seq<EventDoc>)
  {
    forall i, j :: 0 <= i < j < |docs| ==> LexLe(docs[i].name, docs[j].name)
  }

  /** Insert `d` into a list sorted by name. */
  function InsertByName(d: EventDoc, docs: seq<EventDoc>): (r: seq<EventDoc>)
    requires SortedByName(docs)
    ensures SortedByName(r)
    ensures multiset(r) == multiset(docs) + multiset{d}
  {
    if docs == [] then [d]
    else if LexLe(d.name, docs[0].name) then
      assert forall j :: 0 <= j < |docs| ==> LexLe(d.name, docs[j].name) by {
        forall j | 0 <= j < |docs| ensures LexLe(d.name, docs[j].name) {
          if j > 0 { LexLeTransitive(d.name, docs[0].name, docs[j].name); }
        }
      }
      [d] + docs
    else
      var rest := InsertByName(d, docs[1..]);
      assert docs == [docs[0]] + docs[1..];
      LexLeTotal(d.name, docs[0].name);
      InsertedAbove(docs[0].name, d, docs[1..], rest);
      [docs[0]] + rest
  }

  /** A name at or below `d`'s and every name of `docs` is at or below every name after inserting `d`. */
  lemma InsertedAbove(low: string, d: EventDoc, docs: seq<EventDoc>, rest: seq<EventDoc>)
    requires LexLe(low, d.name)
    requires forall j :: 0 <= j < |docs| ==> LexLe(low, docs[j].name)
    requires multiset(rest) == multiset(docs) + multiset{d}
    ensures forall j :: 0 <= j < |rest| ==> LexLe(low, rest[j].name)
  {
    forall j | 0 <= j < |rest| ensures LexLe(low, rest[j].name) {
      assert rest[j] in multiset(rest);
      assert rest[j] == d || rest[j] in multiset(docs);
      if rest[j] != d {
        var k :| 0 <= k < |docs| && docs[k] == rest[j];
      }
    }
  }

  /** `.sort((a, b) => a.name.localeCompare(b.name))`: sorted by name, same entries. */
  function SortByName(docs: seq<EventDoc>): (r: seq<EventDoc>)
    ensures SortedByName(r)
    ensures multiset(r) == multiset(docs)
  {
    if docs == [] then []
    else
      assert docs == [docs[0]] + docs[1..];
      InsertByName(docs[0], SortByName(docs[1..]))
  }

  /** Names sorted with no two alike are strictly increasing. */
  lemma StrictlySorted(docs: seq<EventDoc>)
    requires SortedByName(docs)
    requires forall i, j :: 0 <= i < j < |docs| ==> docs[i].name != docs[j].name
    ensures forall i, j :: 0 <= i < j < |docs| ==> LexLe(docs[i].name, docs[j].name) && !LexLe(docs[j].name, docs[i].name)
  {
    forall i, j | 0 <= i < j < |docs|
      ensures !LexLe(docs[j].name, docs[i].name)
    {
      if LexLe(docs[j].name, docs[i].name) {
        LexLeAntisymmetric(docs[i].name, docs[j].name);
      }
    }
  }

  // ---------------------------------------------------------------------------
  // The whole builder

  /** Each entry is stored under its own name. */
  predicate KeyedByName(events: Events)
  {
    forall n :: n in events ==> events[n].name == n
  }

  /** The projects of `GRID_PROJECTS` with the events `projects.get(projectName)!` yields. */
  function GridProjectEvents(projectEvents: map<ProjectName, seq<EventSymbol>>): (r: seq<(ProjectName, seq<EventSymbol>)>)
    requires forall p :: p in GridProjects ==> p in projectEvents
    ensures |r| == |GridProjects|
    ensures forall k :: 0 <= k < |r| ==> r[k] == (GridProjects[k], projectEvents[GridProjects[k]])
  {
    seq(|GridProjects|, k requires 0 <= k < |GridProjects| => (GridProjects[k], projectEvents[GridProjects[k]]))
  }

  /** The dictionary the builder serializes, before sorting. */
  function FinalEvents(projectEvents: map<ProjectName, seq<EventSymbol>>, props: seq<PropSymbol>): Events
    requires forall p :: p in GridProjects ==> p in projectEvents
  {
    LinkProps(Collect(map[], GridProjectEvents(projectEvents)), props)
  }

  /**
   * `buildGridEventsDocumentation`: scan the three projects, link the premium
   * grid's props, and list the entries sorted by name. `props` stands for
   * `dataGridPremiumProps`; writing the JSON file is left out.
   */
  method BuildGridEventsDocumentation(projectEvents: map<ProjectName, seq<EventSymbol>>, props: seq<PropSymbol>)
    returns (sortedEvents: seq<EventDoc>)
    requires forall p :: p in GridProjects ==> p in projectEvents
    ensures SortedByName(sortedEvents)
    ensures |sortedEvents| == |FinalEvents(projectEvents, props).Keys|
    ensures forall d :: d in sortedEvents ==>
      d.name in FinalEvents(projectEvents, props) && FinalEvents(projectEvents, props)[d.name] == d
    ensures forall n :: n in FinalEvents(projectEvents, props) ==> FinalEvents(projectEvents, props)[n] in sortedEvents
  {
    var projects := GridProjectEvents(projectEvents);
    var events: Events := map[];
    // The keys of `events` in insertion order, the order `Object.values` lists them in.
    var names: seq<string> := [];
    var i := 0;
    while i < |GridProjects|
      invariant 0 <= i <= |GridProjects|
      invariant Collect(events, projects[i..]) == Collect(map[], projects)
      invariant KeyedByName(events)
      invariant forall n :: n in events <==> n in names
      invariant forall a, b :: 0 <= a < b < |names| ==> names[a] != names[b]
    {
      var projectName := GridProjects[i];
      var syms := projectEvents[projectName];
      assert projects[i] == (projectName, syms);
      assert projects[i..][1..] == projects[i + 1..];
      ghost var before := events;
      var j := 0;
      while j < |syms|
        invariant 0 <= j <= |syms|
        invariant AddProject(events, projectName, syms[j..]) == AddProject(before, projectName, syms)
        invariant KeyedByName(events)
        invariant forall n :: n in events <==> n in names
        invariant forall a, b :: 0 <= a < b < |names| ==> names[a] != names[b]
      {
        var event := syms[j];
        assert syms[j..][1..] == syms[j + 1..];
        if !event.ignore {
          if event.name in events {
            events := events[event.name := events[event.name].(projects := events[event.name].projects + [projectName])];
          } else if event.declaration.Some? {
            var decl := event.declaration.value;
            events := events[event.name := NewEntry(projectName, event.name, decl)];
            names := names + [event.name];
          }
        }
        j := j + 1;
      }
      assert syms[j..] == [];
      i := i + 1;
    }
    assert projects[i..] == [];
    ghost var collected := events;

    var k := 0;
    while k < |props|
      invariant 0 <= k <= |props|
      invariant LinkProps(events, props[k..]) == LinkProps(collected, props)
      invariant KeyedByName(events)
      invariant forall n :: n in events <==> n in names
    {
      var prop := props[k];
      assert props[k..][1..] == props[k + 1..];
      if !prop.ignore && prop.listenerLiteral.Some? {
        var eventName := RemoveQuotes(prop.listenerLiteral.value);
        if eventName in events {
          events := events[eventName := events[eventName].(componentProp := Some(prop.escapedName))];
        }
      }
      k := k + 1;
    }
    assert props[k..] == [];

    var values := seq(|names|, n requires 0 <= n < |names| => events[names[n]]);
    sortedEvents := SortByName(values);
    ValuesInInsertionOrder(events, names, values);
    forall d | d in sortedEvents ensures d in values {
      assert d in multiset(sortedEvents);
    }
    forall d | d in values ensures d in sortedEvents {
      assert d in multiset(values);
    }
  }

  /** `Object.values(events)` over keys listed once each: every entry exactly once. */
  lemma ValuesInInsertionOrder(events: Events, names: seq<string>, values: seq<EventDoc>)
    requires KeyedByName(events)
    requires forall n :: n in events <==> n in names
    requires forall a, b :: 0 <= a < b < |names| ==> names[a] != names[b]
    requires |values| == |names| && forall k :: 0 <= k < |names| ==> values[k] == events[names[k]]
    ensures |values| == |events.Keys|
    ensures forall d :: d in values ==> d.name in events && events[d.name] == d
    ensures forall n :: n in events ==> events[n] in values
  {
    ObjectKeys.DistinctSize(names);
    assert events.Keys == set n | n in names;
    forall n | n in events ensures events[n] in values {
      var k :| 0 <= k < |names| && names[k] == n;
      assert values[k] == events[n];
    }
  }
}
