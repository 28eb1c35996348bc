/** `refreshProviderCache`: the global conversation list enriched with what the project-scoped lists
    say. A JavaScript `Map` from id to conversation is the sequence of its values, in insertion order;
    a missing id is the empty string. */
module Enrichment {
  import opened Wrappers

  datatype Conversation = Conversation(id: string, title: string, projectId: Option<string>, url: Option<string>)
  datatype Project = Project(id: string)

  predicate Includes(text: string, part: string) {
    |part| <= |text| && (part <= text || Includes(text[1..], part))
  }

  predicate NamesProject(url: Option<string>) {
    url.Some? && Includes(url.value, "/project/")
  }

  lemma {:induction false} IncludesExactlyWhen(text: string, part: string)
    ensures Includes(text, part) <==> exists i :: 0 <= i <= |text| && part <= text[i..]
  {
    if part <= text {
      assert text[0..] == text;
    } else if |part| <= |text| {
      IncludesExactlyWhen(text[1..], part);
      if Includes(text[1..], part) {
        var i :| 0 <= i <= |text[1..]| && part <= text[1..][i..];
        assert text[i + 1..] == text[1..][i..];
      }
      if i :| 0 <= i <= |text| && part <= text[i..] {
        assert i > 0 && text[1..][i - 1..] == text[i..];
      }
    }
  }

  /** Which urls count: those with `/project/` somewhere in them. */
  lemma NamesProjectExactlyWhen(url: string)
    ensures NamesProject(Some(url)) <==> exists i :: 0 <= i <= |url| && "/project/" <= url[i..]
    ensures !NamesProject(None)
  {
    IncludesExactlyWhen(url, "/project/");
  }

  function Index(list: seq<Conversation>, id: string): (i: nat)
    ensures i <= |list| && (i < |list| ==> list[i].id == id) && forall j | 0 <= j < i :: list[j].id != id
  {
    if list == [] || list[0].id == id then 0 else 1 + Index(list[1..], id)
  }

  /** `Map.set`: an existing key keeps its place. */
  function Put(list: seq<Conversation>, c: Conversation): seq<Conversation> {
    var i := Index(list, c.id);
    if i < |list| then list[i := c] else list + [c]
  }

  /** A conversation of a scoped list, together with the project that was asked. */
  datatype Candidate = Candidate(conversation: Conversation, project: string) {
    function ProjectId(): Option<string> {
      if conversation.projectId.Some? then conversation.projectId else Some(project)
    }
  }

  function Enriched(c: Conversation, offer: Candidate): Conversation {
    c.(projectId := if Truthy(c.projectId) then c.projectId else offer.ProjectId(),
       url := if !NamesProject(c.url) && NamesProject(offer.conversation.url) then offer.conversation.url else c.url)
  }

  /** What one scoped conversation does to the map. */
  function Merged(list: seq<Conversation>, offer: Candidate, includeProjectOnly: bool): seq<Conversation> {
    if offer.conversation.id == "" then list
    else
      var i := Index(list, offer.conversation.id);
      if i < |list| then list[i := Enriched(list[i], offer)]
      else if includeProjectOnly then list + [offer.conversation.(projectId := offer.ProjectId())]
      else list
  }

  function FromGlobal(conversations: seq<Conversation>): seq<Conversation> {
    if conversations == [] then []
    else
      var n := |conversations| - 1;
      var rest := FromGlobal(conversations[..n]);
      if conversations[n].id == "" then rest else Put(rest, conversations[n])
  }

  function MergedAll(list: seq<Conversation>, candidates: seq<Candidate>, includeProjectOnly: bool): seq<Conversation> {
    if candidates == [] then list
    else
      var n := |candidates| - 1;
      Merged(MergedAll(list, candidates[..n], includeProjectOnly), candidates[n], includeProjectOnly)
  }

  function OfProject(project: string, conversations: seq<Conversation>): seq<Candidate> {
    seq(|conversations|, i requires 0 <= i < |conversations| => Candidate(conversations[i], project))
  }

  /** The scoped conversations in the order in which they are merged. A project whose listing throws or
      is no array has the result `None`; a project without an id is not asked. */
  function Candidates(projects: seq<Project>, results: seq<Option<seq<Conversation>>>): seq<Candidate>
    requires |projects| == |results|
  {
    if projects == [] then []
    else
      var n := |projects| - 1;
      Candidates(projects[..n], results[..n])
      + (if projects[n].id != "" && results[n].Some? then OfProject(projects[n].id, results[n].value) else [])
  }

  method RefreshProviderCache(conversations: seq<Conversation>, projects: seq<Project>,
                              results: seq<Option<seq<Conversation>>>, includeProjectOnlyConversations: bool)
    returns (written: seq<Conversation>)
    requires |projects| == |results|
    ensures written ==
      MergedAll(FromGlobal(conversations), Candidates(projects, results), includeProjectOnlyConversations)
  {
    var byId: seq<Conversation> := [];
    for i := 0 to |conversations|
      invariant byId == FromGlobal(conversations[..i])
    {
      assert conversations[..i + 1][..i] == conversations[..i];
      if conversations[i].id == "" { continue; }
      byId := Put(byId, conversations[i]);
    }
    assert conversations[..|conversations|] == conversations;
    ghost var base := byId;
    for i := 0 to |projects|
      invariant byId == MergedAll(base, Candidates(projects[..i], results[..i]), includeProjectOnlyConversations)
    {
      ghost var done := Candidates(projects[..i], results[..i]);
      assert projects[..i + 1][..i] == projects[..i] && results[..i + 1][..i] == results[..i];
      assert done + [] == done;
      if projects[i].id == "" { continue; }
      if results[i].None? { continue; }
      byId := MergeScoped(byId, projects[i].id, results[i].value, includeProjectOnlyConversations);
      MergedAllConcat(base, done, OfProject(projects[i].id, results[i].value), includeProjectOnlyConversations);
    }
    assert projects[..|projects|] == projects && results[..|results|] == results;
    written := byId;
  }

  method MergeScoped(list: seq<Conversation>, project: string, scoped: seq<Conversation>, includeProjectOnly: bool)
    returns (byId: seq<Conversation>)
    ensures byId == MergedAll(list, OfProject(project, scoped), includeProjectOnly)
  {
    byId := list;
    ghost var offers := OfProject(project, scoped);
    for j := 0 to |scoped|
      invariant byId == MergedAll(list, offers[..j], includeProjectOnly)
    {
      assert offers[..j + 1][..j] == offers[..j];
      if scoped[j].id == "" { continue; }
      var at := Index(byId, scoped[j].id);
      if at == |byId| {
        if !includeProjectOnly { continue; }
        var projectId := if scoped[j].projectId.Some? then scoped[j].projectId else Some(project);
        byId := byId + [scoped[j].(projectId := projectId)];
        continue;
      }
      var existing := byId[at];
      if !Truthy(existing.projectId) {
        existing := existing.(projectId := if scoped[j].projectId.Some? then scoped[j].projectId else Some(project));
      }
      if !NamesProject(existing.url) && NamesProject(scoped[j].url) {
        existing := existing.(url := scoped[j].url);
      }
      byId := byId[at := existing];
    }
    assert offers[..|scoped|] == offers;
  }

  lemma {:induction false} MergedAllConcat(list: seq<Conversation>, a: seq<Candidate>, b: seq<Candidate>,
                                           includeProjectOnly: bool)
    ensures MergedAll(list, a + b, includeProjectOnly)
            == MergedAll(MergedAll(list, a, includeProjectOnly), b, includeProjectOnly)
  {
    if b == [] {
      assert a + b == a;
    } else {
      assert (a + b)[..|a + b| - 1] == a + b[..|b| - 1];
      MergedAllConcat(list, a, b[..|b| - 1], includeProjectOnly);
    }
  }

  // ----- Which ids come out, and in what order -----

  function Ids(list: seq<Conversation>): seq<string> {
    seq(|list|, i requires 0 <= i < |list| => list[i].id)
  }

  /** The non-empty strings of `ids`, each where it first occurs. */
  function FirstOccurrences(ids: seq<string>): seq<string> {
    if ids == [] then []
    else
      var n := |ids| - 1;
      var rest := FirstOccurrences(ids[..n]);
      if ids[n] == "" || ids[n] in rest then rest else rest + [ids[n]]
  }

  function CandidateIds(candidates: seq<Candidate>): seq<string> {
    seq(|candidates|, i requires 0 <= i < |candidates| => candidates[i].conversation.id)
  }

  lemma {:induction false} FirstOccurrencesUnique(ids: seq<string>)
    ensures Distinct(FirstOccurrences(ids)) && "" !in FirstOccurrences(ids)
    ensures forall id :: id in FirstOccurrences(ids) <==> id != "" && id in ids
  {
    if ids != [] {
      FirstOccurrencesUnique(ids[..|ids| - 1]);
      assert ids == ids[..|ids| - 1] + [ids[|ids| - 1]];
    }
  }

  lemma IndexOfId(list: seq<Conversation>, id: string)
    ensures Index(list, id) < |list| <==> id in Ids(list)
  {
    assert forall j | 0 <= j < |list| :: Ids(list)[j] == list[j].id;
  }

  lemma IndexAt(list: seq<Conversation>, i: nat)
    requires Distinct(Ids(list)) && i < |list|
    ensures Index(list, list[i].id) == i
  {
    assert forall j | 0 <= j < |list| :: Ids(list)[j] == list[j].id;
  }

  lemma MergedOneIds(list: seq<Conversation>, offer: Candidate, includeProjectOnly: bool)
    ensures var id := offer.conversation.id;
            Ids(Merged(list, offer, includeProjectOnly))
            == if id == "" || id in Ids(list) || !includeProjectOnly then Ids(list) else Ids(list) + [id]
  {
    IndexOfId(list, offer.conversation.id);
  }

  lemma {:induction false} GlobalIds(conversations: seq<Conversation>)
    ensures Ids(FromGlobal(conversations)) == FirstOccurrences(Ids(conversations))
  {
    if conversations != [] {
      var n := |conversations| - 1;
      GlobalIds(conversations[..n]);
      assert Ids(conversations)[..n] == Ids(conversations[..n]);
      IndexOfId(FromGlobal(conversations[..n]), conversations[n].id);
    }
  }

  lemma FirstOccurrencesSnoc(ids: seq<string>, id: string)
    ensures FirstOccurrences(ids + [id])
            == if id == "" || id in FirstOccurrences(ids) then FirstOccurrences(ids) else FirstOccurrences(ids) + [id]
  {
    assert (ids + [id])[..|ids|] == ids;
  }

  lemma {:induction false} MergedIdsKept(list: seq<Conversation>, candidates: seq<Candidate>)
    ensures Ids(MergedAll(list, candidates, false)) == Ids(list)
  {
    if candidates != [] {
      var n := |candidates| - 1;
      MergedIdsKept(list, candidates[..n]);
      MergedOneIds(MergedAll(list, candidates[..n], false), candidates[n], false);
    }
  }

  lemma MergedOneIdsAdded(list: seq<Conversation>, seen: seq<string>, offer: Candidate)
    requires Ids(list) == FirstOccurrences(seen)
    ensures Ids(Merged(list, offer, true)) == FirstOccurrences(seen + [offer.conversation.id])
  {
    MergedOneIds(list, offer, true);
    FirstOccurrencesSnoc(seen, offer.conversation.id);
  }

  lemma CandidateIdsSnoc(seen: seq<string>, candidates: seq<Candidate>)
    requires candidates != []
    ensures var n := |candidates| - 1;
            seen + CandidateIds(candidates) == seen + CandidateIds(candidates[..n]) + [candidates[n].conversation.id]
  {
  }

  lemma {:induction false} MergedIdsAdded(list: seq<Conversation>, seen: seq<string>, candidates: seq<Candidate>)
    requires Ids(list) == FirstOccurrences(seen)
    ensures Ids(MergedAll(list, candidates, true)) == FirstOccurrences(seen + CandidateIds(candidates))
  {
    if candidates == [] {
      assert seen + CandidateIds(candidates) == seen;
    } else {
      var n := |candidates| - 1;
      MergedIdsAdded(list, seen, candidates[..n]);
      MergedOneIdsAdded(MergedAll(list, candidates[..n], true), seen + CandidateIds(candidates[..n]), candidates[n]);
      CandidateIdsSnoc(seen, candidates);
    }
  }

  lemma MergedIds(list: seq<Conversation>, seen: seq<string>, candidates: seq<Candidate>, includeProjectOnly: bool)
    requires Ids(list) == FirstOccurrences(seen)
    ensures Ids(MergedAll(list, candidates, includeProjectOnly))
            == FirstOccurrences(seen + (if includeProjectOnly then CandidateIds(candidates) else []))
  {
    if includeProjectOnly {
      MergedIdsAdded(list, seen, candidates);
    } else {
      MergedIdsKept(list, candidates);
      assert seen + [] == seen;
    }
  }

  /** Output ids are unique and in first-occurrence order: the non-empty ids of the global list, and with
      the include flag those of the scoped lists after them. */
  lemma WrittenIds(conversations: seq<Conversation>, candidates: seq<Candidate>, includeProjectOnly: bool)
    ensures var written := MergedAll(FromGlobal(conversations), candidates, includeProjectOnly);
            && Ids(written) ==
                 FirstOccurrences(Ids(conversations) + (if includeProjectOnly then CandidateIds(candidates) else []))
            && Distinct(Ids(written)) && "" !in Ids(written)
  {
    GlobalIds(conversations);
    MergedIds(FromGlobal(conversations), Ids(conversations), candidates, includeProjectOnly);
    FirstOccurrencesUnique(Ids(conversations) + (if includeProjectOnly then CandidateIds(candidates) else []));
  }

  // ----- What becomes of one conversation -----

  function Lookup(list: seq<Conversation>, id: string): Option<Conversation> {
    var i := Index(list, id);
    if i < |list| then Some(list[i]) else None
  }

  function Tracked(c: Option<Conversation>, id: string, offer: Candidate,
                   includeProjectOnly: bool): Option<Conversation>
  {
    if offer.conversation.id != id then c
    else if c.Some? then Some(Enriched(c.value, offer))
    else if includeProjectOnly then Some(offer.conversation.(projectId := offer.ProjectId()))
    else None
  }

  function TrackedAll(c: Option<Conversation>, id: string, candidates: seq<Candidate>,
                      includeProjectOnly: bool): Option<Conversation>
  {
    if candidates == [] then c
    else
      var n := |candidates| - 1;
      Tracked(TrackedAll(c, id, candidates[..n], includeProjectOnly), id, candidates[n], includeProjectOnly)
  }

  lemma DistinctNext(list: seq<Conversation>, offer: Candidate, includeProjectOnly: bool)
    requires Distinct(Ids(list))
    ensures Distinct(Ids(Merged(list, offer, includeProjectOnly)))
  {
    MergedOneIds(list, offer, includeProjectOnly);
  }

  lemma MergedLookup(list: seq<Conversation>, id: string, offer: Candidate, includeProjectOnly: bool)
    requires id != "" && Distinct(Ids(list))
    ensures Lookup(Merged(list, offer, includeProjectOnly), id)
            == Tracked(Lookup(list, id), id, offer, includeProjectOnly)
    ensures Distinct(Ids(Merged(list, offer, includeProjectOnly)))
  {
    var next, i := Merged(list, offer, includeProjectOnly), Index(list, id);
    MergedOneIds(list, offer, includeProjectOnly);
    DistinctNext(list, offer, includeProjectOnly);
    IndexOfId(list, id);
    IndexOfId(next, id);
    if i < |list| {
      assert Ids(list)[i] == Ids(next)[i] == next[i].id;
      IndexAt(next, i);
    } else if offer.conversation.id == id && includeProjectOnly {
      IndexAt(next, |list|);
    }
  }

  lemma {:induction false} MergedAllLookup(list: seq<Conversation>, id: string, candidates: seq<Candidate>,
                                           includeProjectOnly: bool)
    requires id != "" && Distinct(Ids(list))
    ensures Lookup(MergedAll(list, candidates, includeProjectOnly), id)
            == TrackedAll(Lookup(list, id), id, candidates, includeProjectOnly)
    ensures Distinct(Ids(MergedAll(list, candidates, includeProjectOnly)))
  {
    if candidates != [] {
      var n := |candidates| - 1;
      MergedAllLookup(list, id, candidates[..n], includeProjectOnly);
      MergedLookup(MergedAll(list, candidates[..n], includeProjectOnly), id, candidates[n], includeProjectOnly);
    }
  }

  /** The project ids on offer for `id`, the conversation's own first. */
  /** A scoped conversation offers its own project id, or the project whose listing it comes from. */
  function ProjectOffers(c: Option<Conversation>, id: string, candidates: seq<Candidate>): seq<Option<string>> {
    if candidates == [] then (if c.Some? then [c.value.projectId] else [])
    else
      var n := |candidates| - 1;
      var scoped, project := candidates[n].conversation, candidates[n].project;
      ProjectOffers(c, id, candidates[..n])
      + (if scoped.id == id then [if scoped.projectId.Some? then scoped.projectId else Some(project)] else [])
  }

  function UrlOffers(c: Option<Conversation>, id: string, candidates: seq<Candidate>): seq<Option<string>> {
    if candidates == [] then (if c.Some? then [c.value.url] else [])
    else
      var n := |candidates| - 1;
      UrlOffers(c, id, candidates[..n])
      + (if candidates[n].conversation.id == id then [candidates[n].conversation.url] else [])
  }

  /** `value` is the first offer that `good` accepts; when there is none, it is not good either. */
  ghost predicate IsFirst(value: Option<string>, offers: seq<Option<string>>, good: Option<string> -> bool) {
    || (!good(value) && forall o | o in offers :: !good(o))
    || exists i :: 0 <= i < |offers| && offers[i] == value && good(value) && forall j | 0 <= j < i :: !good(offers[j])
  }

  lemma FirstOfMore(value: Option<string>, offers: seq<Option<string>>, good: Option<string> -> bool,
                    next: Option<string>)
    requires IsFirst(value, offers, good)
    ensures IsFirst(if good(value) then value else next, offers + [next], good)
    ensures IsFirst(if !good(value) && good(next) then next else value, offers + [next], good)
  {
    var more := offers + [next];
    if good(value) {
      var i :| 0 <= i < |offers| && offers[i] == value && forall j | 0 <= j < i :: !good(offers[j]);
      assert more[i] == value && forall j | 0 <= j < i :: more[j] == offers[j];
    } else if good(next) {
      assert more[|offers|] == next;
      assert forall j | 0 <= j < |offers| :: more[j] == offers[j] && offers[j] in offers;
    } else {
      assert forall o | o in more :: o in offers || o == next;
    }
  }

  lemma FirstOfOne(value: Option<string>, good: Option<string> -> bool)
    ensures IsFirst(value, [value], good)
  {
    assert [value][0] == value;
  }

  /** A non-empty project id is never replaced, and the first non-empty offer in project order wins; a
      url that names a project is never replaced, and the first one that does wins. */
  lemma {:induction false} FirstOfferWins(c: Option<Conversation>, id: string, candidates: seq<Candidate>,
                                          includeProjectOnly: bool)
    requires c.Some? || includeProjectOnly
    ensures var after := TrackedAll(c, id, candidates, includeProjectOnly);
            && (after.None? ==> c.None? && ProjectOffers(c, id, candidates) == [] && UrlOffers(c, id, candidates) == [])
            && (after.Some? ==>
                  && IsFirst(after.value.projectId, ProjectOffers(c, id, candidates), Truthy)
                  && IsFirst(after.value.url, UrlOffers(c, id, candidates), NamesProject))
  {
    if candidates == [] {
      if c.Some? {
        FirstOfOne(c.value.projectId, Truthy);
        FirstOfOne(c.value.url, NamesProject);
      }
    } else {
      var n := |candidates| - 1;
      FirstOfferWins(c, id, candidates[..n], includeProjectOnly);
      var before := TrackedAll(c, id, candidates[..n], includeProjectOnly);
      if candidates[n].conversation.id == id {
        if before.Some? {
          FirstOfMore(before.value.projectId, ProjectOffers(c, id, candidates[..n]), Truthy, candidates[n].ProjectId());
          FirstOfMore(before.value.url, UrlOffers(c, id, candidates[..n]), NamesProject,
                      candidates[n].conversation.url);
        } else {
          FirstOfOne(candidates[n].ProjectId(), Truthy);
          FirstOfOne(candidates[n].conversation.url, NamesProject);
          assert ProjectOffers(c, id, candidates) == [candidates[n].ProjectId()];
          assert UrlOffers(c, id, candidates) == [candidates[n].conversation.url];
        }
      } else {
        assert ProjectOffers(c, id, candidates) == ProjectOffers(c, id, candidates[..n]);
        assert UrlOffers(c, id, candidates) == UrlOffers(c, id, candidates[..n]);
      }
    }
  }

  /** So each written conversation carries the first non-empty project id, and the first url that names a
      project, among its global entry and its scoped ones in project order. */
  lemma WrittenFirstOfferWins(conversations: seq<Conversation>, candidates: seq<Candidate>, includeProjectOnly: bool,
                              id: string)
    requires id != ""
    ensures var base := Lookup(FromGlobal(conversations), id);
            var written := Lookup(MergedAll(FromGlobal(conversations), candidates, includeProjectOnly), id);
            && (written.Some? ==>
                  && IsFirst(written.value.projectId, ProjectOffers(base, id, candidates), Truthy)
                  && IsFirst(written.value.url, UrlOffers(base, id, candidates), NamesProject))
            && (base.Some? ==> written.Some? && written.value.title == base.value.title)
            && (base.None? && !includeProjectOnly ==> written.None?)
  {
    var base := Lookup(FromGlobal(conversations), id);
    GlobalIds(conversations);
    FirstOccurrencesUnique(Ids(conversations));
    MergedAllLookup(FromGlobal(conversations), id, candidates, includeProjectOnly);
    if base.Some? || includeProjectOnly {
      FirstOfferWins(base, id, candidates, includeProjectOnly);
    } else {
      SkippedStaysOut(id, candidates);
    }
    if base.Some? {
      OtherFieldsStay(base.value, id, candidates, includeProjectOnly);
    }
  }

  /** Whose title stays: the entry that was there first. */
  lemma {:induction false} OtherFieldsStay(c: Conversation, id: string, candidates: seq<Candidate>,
                                           includeProjectOnly: bool)
    ensures var after := TrackedAll(Some(c), id, candidates, includeProjectOnly);
            after.Some? && after.value.title == c.title && after.value.id == c.id
  {
    if candidates != [] {
      OtherFieldsStay(c, id, candidates[..|candidates| - 1], includeProjectOnly);
    }
  }

  /** A conversation that only project listings hold comes in with the flag, as the first of them has it. */
  lemma {:induction false} NewcomerIsFirst(id: string, candidates: seq<Candidate>, i: nat)
    requires i < |candidates| && candidates[i].conversation.id == id
    requires forall j | 0 <= j < i :: candidates[j].conversation.id != id
    ensures var written := TrackedAll(None, id, candidates, true);
            written.Some? && written.value.id == id && written.value.title == candidates[i].conversation.title
  {
    var n := |candidates| - 1;
    if i < n {
      NewcomerIsFirst(id, candidates[..n], i);
    } else {
      NobodyYet(id, candidates[..n]);
    }
  }

  lemma {:induction false} NobodyYet(id: string, candidates: seq<Candidate>)
    requires forall offer | offer in candidates :: offer.conversation.id != id
    ensures TrackedAll(None, id, candidates, true) == None
  {
    if candidates != [] {
      NobodyYet(id, candidates[..|candidates| - 1]);
    }
  }

  lemma NewcomersTitle(conversations: seq<Conversation>, candidates: seq<Candidate>, id: string, i: nat)
    requires id != "" && id !in Ids(conversations)
    requires i < |candidates| && candidates[i].conversation.id == id
    requires forall j | 0 <= j < i :: candidates[j].conversation.id != id
    ensures var written := Lookup(MergedAll(FromGlobal(conversations), candidates, true), id);
            written.Some? && written.value.title == candidates[i].conversation.title
  {
    GlobalIds(conversations);
    FirstOccurrencesUnique(Ids(conversations));
    IndexOfId(FromGlobal(conversations), id);
    MergedAllLookup(FromGlobal(conversations), id, candidates, true);
    NewcomerIsFirst(id, candidates, i);
  }

  // ----- Merging again -----

  ghost predicate Settled(c: Conversation, offer: Candidate) {
    Enriched(c, offer) == c
  }

  lemma {:induction false} TrackedSettles(c: Option<Conversation>, id: string, candidates: seq<Candidate>,
                                          includeProjectOnly: bool)
    requires forall offer | offer in candidates :: offer.project != ""
    requires c.Some? || includeProjectOnly
    ensures var after := TrackedAll(c, id, candidates, includeProjectOnly);
            && (c.Some? ==> after.Some?)
            && (after.None? ==> forall offer | offer in candidates :: offer.conversation.id != id)
            && (after.Some? ==>
                  forall offer | offer in candidates && offer.conversation.id == id :: Settled(after.value, offer))
  {
    if candidates != [] {
      var n := |candidates| - 1;
      TrackedSettles(c, id, candidates[..n], includeProjectOnly);
      assert candidates == candidates[..n] + [candidates[n]];
    }
  }

  lemma {:induction false} SettledStays(c: Conversation, id: string, candidates: seq<Candidate>,
                                        includeProjectOnly: bool)
    requires forall offer | offer in candidates && offer.conversation.id == id :: Settled(c, offer)
    ensures TrackedAll(Some(c), id, candidates, includeProjectOnly) == Some(c)
  {
    if candidates != [] {
      var n := |candidates| - 1;
      assert candidates == candidates[..n] + [candidates[n]];
      SettledStays(c, id, candidates[..n], includeProjectOnly);
    }
  }

  lemma {:induction false} SkippedStaysOut(id: string, candidates: seq<Candidate>)
    ensures TrackedAll(None, id, candidates, false) == None
  {
    if candidates != [] {
      SkippedStaysOut(id, candidates[..|candidates| - 1]);
    }
  }

  lemma SameLists(a: seq<Conversation>, b: seq<Conversation>)
    requires Ids(a) == Ids(b) && Distinct(Ids(a))
    requires forall id | id in Ids(a) :: Lookup(a, id) == Lookup(b, id)
    ensures a == b
  {
    assert |a| == |Ids(a)| == |Ids(b)| == |b|;
    forall i | 0 <= i < |a| ensures a[i] == b[i] {
      var id := Ids(a)[i];
      assert a[i].id == id && b[i].id == Ids(b)[i] == id;
      IndexAt(a, i);
      IndexAt(b, i);
      assert Lookup(a, id) == Lookup(b, id);
    }
  }

  lemma {:induction false} GlobalOfUnique(list: seq<Conversation>)
    requires Distinct(Ids(list)) && "" !in Ids(list)
    ensures FromGlobal(list) == list
  {
    if list != [] {
      var n := |list| - 1;
      assert Ids(list[..n]) == Ids(list)[..n];
      GlobalOfUnique(list[..n]);
      IndexOfId(list[..n], list[n].id);
      assert Ids(list)[n] == list[n].id;
      assert list == list[..n] + [list[n]];
    }
  }

  /** Running the merge on its own result changes nothing. */
  lemma MergeIsIdempotent(conversations: seq<Conversation>, candidates: seq<Candidate>, includeProjectOnly: bool)
    requires forall offer | offer in candidates :: offer.project != ""
    ensures var written := MergedAll(FromGlobal(conversations), candidates, includeProjectOnly);
            MergedAll(FromGlobal(written), candidates, includeProjectOnly) == written
  {
    var base := FromGlobal(conversations);
    var written := MergedAll(base, candidates, includeProjectOnly);
    WrittenIds(conversations, candidates, includeProjectOnly);
    GlobalOfUnique(written);
    var again := MergedAll(written, candidates, includeProjectOnly);
    GlobalIds(conversations);
    FirstOccurrencesUnique(Ids(conversations));
    AgainIds(conversations, candidates, includeProjectOnly);
    forall id | id in Ids(again) ensures Lookup(again, id) == Lookup(written, id) {
      MergedAllLookup(base, id, candidates, includeProjectOnly);
      MergedAllLookup(written, id, candidates, includeProjectOnly);
      IndexOfId(written, id);
      var c := Lookup(base, id);
      if c.Some? || includeProjectOnly {
        TrackedSettles(c, id, candidates, includeProjectOnly);
        SettledStays(Lookup(written, id).value, id, candidates, includeProjectOnly);
      } else {
        SkippedStaysOut(id, candidates);
      }
    }
    SameLists(again, written);
  }

  lemma AgainIds(conversations: seq<Conversation>, candidates: seq<Candidate>, includeProjectOnly: bool)
    ensures var written := MergedAll(FromGlobal(conversations), candidates, includeProjectOnly);
            Ids(MergedAll(written, candidates, includeProjectOnly)) == Ids(written)
  {
    var written := MergedAll(FromGlobal(conversations), candidates, includeProjectOnly);
    var extra := if includeProjectOnly then CandidateIds(candidates) else [];
    var seen := Ids(conversations) + extra;
    WrittenIds(conversations, candidates, includeProjectOnly);
    MergedIds(written, seen, candidates, includeProjectOnly);
    NothingNew(seen, extra);
  }

  lemma {:induction false} NothingNew(seen: seq<string>, extra: seq<string>)
    requires forall id | id in extra :: id in seen
    ensures FirstOccurrences(seen + extra) == FirstOccurrences(seen)
  {
    if extra == [] {
      assert seen + extra == seen;
    } else {
      var n := |extra| - 1;
      assert (seen + extra)[..|seen| + n] == seen + extra[..n];
      NothingNew(seen, extra[..n]);
      FirstOccurrencesUnique(seen);
      assert extra[n] in seen;
    }
  }

  lemma {:induction false} CandidateProjects(projects: seq<Project>, results: seq<Option<seq<Conversation>>>)
    requires |projects| == |results|
    ensures forall offer | offer in Candidates(projects, results) :: offer.project != ""
  {
    if projects != [] {
      CandidateProjects(projects[..|projects| - 1], results[..|projects| - 1]);
    }
  }

  /** So refreshing again from what a refresh has written, with the same answers, changes nothing. */
  lemma RefreshIsIdempotent(conversations: seq<Conversation>, projects: seq<Project>,
                            results: seq<Option<seq<Conversation>>>, includeProjectOnly: bool)
    requires |projects| == |results|
    ensures var candidates := Candidates(projects, results);
            var written := MergedAll(FromGlobal(conversations), candidates, includeProjectOnly);
            MergedAll(FromGlobal(written), candidates, includeProjectOnly) == written
  {
    CandidateProjects(projects, results);
    MergeIsIdempotent(conversations, Candidates(projects, results), includeProjectOnly);
  }

  /** Of several global conversations with one id the last one counts; its place is that of the first. */
  lemma {:induction false} GlobalKeepsLast(conversations: seq<Conversation>, i: nat)
    requires i < |conversations| && conversations[i].id != ""
    requires forall j | i < j < |conversations| :: conversations[j].id != conversations[i].id
    ensures Lookup(FromGlobal(conversations), conversations[i].id) == Some(conversations[i])
  {
    var n, id := |conversations| - 1, conversations[i].id;
    var rest, last := FromGlobal(conversations[..n]), conversations[n];
    GlobalIds(conversations[..n]);
    FirstOccurrencesUnique(Ids(conversations[..n]));
    if i == n {
      PutFound(rest, last, id);
    } else {
      GlobalKeepsLast(conversations[..n], i);
      if last.id != "" {
        PutFound(rest, last, id);
      }
    }
  }

  /** What `Map.get` finds after one `Map.set`. */
  lemma {:induction false} PutFound(list: seq<Conversation>, c: Conversation, id: string)
    requires Distinct(Ids(list))
    ensures Lookup(Put(list, c), id) == if id == c.id then Some(c) else Lookup(list, id)
  {
    var next, i, at := Put(list, c), Index(list, c.id), Index(list, id);
    IndexOfId(list, c.id);
    IndexOfId(list, id);
    IndexOfId(next, id);
    assert Ids(next) == if i < |list| then Ids(list) else Ids(list) + [c.id];
    if id == c.id {
      IndexAt(next, i);
    } else if at < |list| {
      assert Ids(list)[at] == Ids(next)[at] == next[at].id;
      IndexAt(next, at);
    }
  }

  /** A project whose listing fails contributes what an empty listing would. */
  lemma {:induction false} FailureIsEmpty(projects: seq<Project>, results: seq<Option<seq<Conversation>>>, i: nat)
    requires |projects| == |results| && i < |results| && results[i].None?
    ensures Candidates(projects, results[i := Some([])]) == Candidates(projects, results)
  {
    var n := |projects| - 1;
    var replaced := results[i := Some([])];
    if i == n {
      assert replaced[..n] == results[..n];
      assert OfProject(projects[n].id, []) == [];
    } else {
      assert replaced[..n] == results[..n][i := Some([])];
      FailureIsEmpty(projects[..n], results[..n], i);
    }
  }
}
