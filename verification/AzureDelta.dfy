/** The Azure directory's groups and users, kept up to date from delta pages. */
module AzureDelta {
  import opened Options
  import opened Strings

  datatype Member = Member(memberType: string, id: string)

  datatype Group = Group(id: string, displayName: string, members: map<string, Member>)

  datatype User = User(id: string, displayName: string, email: string)

  type Groups = map<string, Group>
  type Users = map<string, User>

  // --- Delta entries as the API sends them ---

  datatype MemberEntry = MemberEntry(memberType: string, id: string, removed: bool)

  datatype GroupEntry = GroupEntry(id: string, displayName: string, members: seq<MemberEntry>, removed: bool)

  /** `email` is already derived, as `Email` does it. */
  datatype UserEntry = UserEntry(id: string, displayName: string, email: string, removed: bool)

  datatype Page<T> = Page(value: seq<T>, nextLink: string, deltaLink: string)

  /** One API answer; `None` is an error. */
  type Answer<T> = Option<Page<T>>

  function ApplyMembers(members: map<string, Member>, entries: seq<MemberEntry>): map<string, Member> {
    if entries == [] then members
    else
      var before, m := ApplyMembers(members, entries[..|entries| - 1]), entries[|entries| - 1];
      if m.removed then before - {m.id} else before[m.id := Member(m.memberType, m.id)]
  }

  /** `last` is the place of the last entry of the member, -1 when there is none; it alone decides. */
  lemma {:induction false} LastMemberEntryDecides(members: map<string, Member>, entries: seq<MemberEntry>, id: string)
    returns (last: int)
    ensures -1 <= last < |entries|
    ensures last != -1 ==> entries[last].id == id
    ensures forall i :: last < i < |entries| ==> entries[i].id != id
    ensures Lookup(ApplyMembers(members, entries), id)
         == if last == -1 then Lookup(members, id)
            else if entries[last].removed then None else Some(Member(entries[last].memberType, id))
  {
    last := |entries| - 1;
    if entries != [] && entries[last].id != id {
      last := LastMemberEntryDecides(members, entries[..last], id);
    }
  }

  function MembersOf(g: Option<Group>): map<string, Member> {
    if g.Some? then g.value.members else map[]
  }

  function ApplyGroup(groups: Groups, e: GroupEntry): Groups {
    if e.removed then groups - {e.id}
    else groups[e.id := Group(e.id, e.displayName, ApplyMembers(MembersOf(Lookup(groups, e.id)), e.members))]
  }

  /** An entry touches its own group alone: gone, or with the new name and the members merged in. */
  lemma GroupEntryDecides(groups: Groups, e: GroupEntry, id: string)
    ensures Lookup(ApplyGroup(groups, e), id) ==
              if id != e.id then Lookup(groups, id)
              else if e.removed then None
              else Some(Group(id, e.displayName, ApplyMembers(if id in groups then groups[id].members else map[], e.members)))
  {
  }

  function ApplyGroups(groups: Groups, entries: seq<GroupEntry>): Groups {
    if entries == [] then groups
    else ApplyGroup(ApplyGroups(groups, entries[..|entries| - 1]), entries[|entries| - 1])
  }

  const EXTERNAL := "#EXT"

  /** Where a marker first occurs, or -1. */
  function IndexOf(s: string, marker: string): (i: int)
    ensures -1 <= i <= |s|
  {
    if marker <= s then 0
    else if s == "" then -1
    else
      var i := IndexOf(s[1..], marker);
      if i == -1 then -1 else i + 1
  }

  /** Without a mail address it is read off the principal name. */
  function Email(mail: string, principalName: string): string {
    if mail != "" then mail
    else
      var marker := IndexOf(principalName, EXTERNAL);
      var name := if marker > 0 then principalName[..marker] else principalName;
      var last := LastIndexByte(name, '_');
      if last > 0 then name[..last] + "@" + name[last + 1..] else name
  }

  lemma {:induction false} IndexOfExternal(a: string, b: string)
    requires '#' !in a
    ensures IndexOf(a + EXTERNAL + b, EXTERNAL) == |a|
  {
    var s := a + EXTERNAL + b;
    if a == "" {
      assert s == EXTERNAL + b;
    } else {
      assert s[0] == a[0] && s[1..] == a[1..] + EXTERNAL + b;
      assert EXTERNAL[0] != s[0];
      IndexOfExternal(a[1..], b);
    }
  }

  /** The address of an external user is recovered from their principal name. */
  lemma EmailOfExternal(local: string, domain: string, rest: string)
    requires local != "" && '#' !in local && '#' !in domain && '_' !in domain
    ensures Email("", local + "_" + domain + "#EXT" + rest) == local + "@" + domain
  {
    var name := local + "_" + domain;
    var principalName := name + EXTERNAL + rest;
    IndexOfExternal(name, rest);
    assert principalName[..|name|] == name;
    assert name[|local|] == '_' && name[|local| + 1..] == domain && name[..|local|] == local;
    LastIndexUnique(name, '_', |local|);
  }

  /** A mail address is taken as it is, and so is a principal name with neither marker nor underscore. */
  lemma EmailAsGiven(mail: string, principalName: string)
    ensures mail != "" ==> Email(mail, principalName) == mail
    ensures mail == "" && '#' !in principalName && '_' !in principalName ==> Email(mail, principalName) == principalName
  {
    if '#' !in principalName {
      NoMarker(principalName);
    }
  }

  lemma {:induction false} NoMarker(s: string)
    requires '#' !in s
    ensures IndexOf(s, EXTERNAL) == -1
  {
    if s != "" {
      NoMarker(s[1..]);
      assert EXTERNAL[0] != s[0];
    }
  }

  function ApplyUser(users: Users, e: UserEntry): Users {
    if e.removed then users - {e.id} else users[e.id := User(e.id, e.displayName, e.email)]
  }

  function ApplyUsers(users: Users, entries: seq<UserEntry>): Users {
    if entries == [] then users
    else ApplyUser(ApplyUsers(users, entries[..|entries| - 1]), entries[|entries| - 1])
  }

  /** The entries that reach the collection before an error or the last page. */
  function Delivered<T>(answers: seq<Answer<T>>): seq<T> {
    if answers == [] || answers[0].None? then []
    else if answers[0].value.nextLink == "" then answers[0].value.value
    else answers[0].value.value + Delivered(answers[1..])
  }

  /** The delta link of a sync that reaches its last page. */
  function FinalLink<T>(answers: seq<Answer<T>>): Option<string> {
    if answers == [] || answers[0].None? then None
    else if answers[0].value.nextLink == "" then Some(answers[0].value.deltaLink)
    else FinalLink(answers[1..])
  }

  /** The URLs a sync asks for: the given one, then the next link of every page. */
  function Requested<T>(url: string, answers: seq<Answer<T>>): seq<string>
    decreases answers
  {
    if answers == [] then []
    else if answers[0].None? || answers[0].value.nextLink == "" then [url]
    else [url] + Requested(answers[0].value.nextLink, answers[1..])
  }

  /** The values of the first `n` pages, in order. */
  function PageValues<T>(pages: seq<Page<T>>, n: nat): seq<T>
    requires n <= |pages|
  {
    if n == 0 then [] else PageValues(pages, n - 1) + pages[n - 1].value
  }

  /**
   A sync whose calls succeed `n` times and then fail, or reach a page without next
   link: what is applied, where it leaves the delta link, and what was asked for.
   */
  lemma {:induction false} SyncOfPages<T>(url: string, pages: seq<Page<T>>, failed: bool)
    requires forall i :: 0 <= i < |pages| - 1 ==> pages[i].nextLink != ""
    requires pages != [] && (pages[|pages| - 1].nextLink == "" <==> !failed)
    ensures var answers := Answers(pages) + if failed then [None] else [];
            && Delivered(answers) == PageValues(pages, |pages|)
            && FinalLink(answers) == (if failed then None else Some(pages[|pages| - 1].deltaLink))
            && Requested(url, answers) == [url] + NextLinks(pages)
    decreases pages
  {
    var end: seq<Answer<T>> := if failed then [None] else [];
    var answers, rest := Answers(pages) + end, pages[1..];
    assert answers[0] == Some(pages[0]);
    if |pages| > 1 {
      SyncOfPages(pages[0].nextLink, rest, failed);
      assert answers[1..] == Answers(rest) + end;
      PageValuesCons(pages, |pages|);
      assert NextLinks(pages) == [pages[0].nextLink] + NextLinks(rest);
    } else {
      assert answers[1..] == end;
      assert PageValues(pages, 1) == [] + pages[0].value == pages[0].value;
      assert failed ==> Delivered(end) == [] && Requested(pages[0].nextLink, end) == [pages[0].nextLink];
      assert NextLinks(pages) == if failed then [pages[0].nextLink] else [];
    }
  }

  function Answers<T>(pages: seq<Page<T>>): seq<Answer<T>> {
    seq(|pages|, i requires 0 <= i < |pages| => Some(pages[i]))
  }

  /** The links that are not empty; only the last page may lack one. */
  function NextLinks<T>(pages: seq<Page<T>>): seq<string> {
    var n := if pages != [] && pages[|pages| - 1].nextLink == "" then |pages| - 1 else |pages|;
    seq(n, i requires 0 <= i < n => pages[i].nextLink)
  }

  lemma {:induction false} PageValuesCons<T>(pages: seq<Page<T>>, n: nat)
    requires 1 <= n <= |pages|
    ensures PageValues(pages, n) == pages[0].value + PageValues(pages[1..], n - 1)
  {
    if n == 1 {
      assert [] + pages[0].value == pages[0].value == pages[0].value + [];
    } else {
      PageValuesCons(pages, n - 1);
    }
  }

  class DeltaCollection {
    const groupsURL: string
    const usersURL: string
    var groups: Groups
    var groupDeltaLink: string
    var users: Users
    var userDeltaLink: string

    constructor (groupsURL: string, usersURL: string)
      ensures this.groupsURL == groupsURL && this.usersURL == usersURL
      ensures groups == map[] && users == map[] && groupDeltaLink == "" && userDeltaLink == ""
    {
      this.groupsURL, this.usersURL := groupsURL, usersURL;
      groups, users, groupDeltaLink, userDeltaLink := map[], map[], "", "";
    }

    method ApplyGroupPage(value: seq<GroupEntry>)
      modifies this`groups
      ensures groups == ApplyGroups(old(groups), value)
    {
      for i := 0 to |value|
        invariant groups == ApplyGroups(old(groups), value[..i])
      {
        var g := value[i];
        assert value[..i + 1][..i] == value[..i];
        if g.removed {
          groups := groups - {g.id};
        } else {
          var members := if g.id in groups then groups[g.id].members else map[];
          ghost var before := members;
          for j := 0 to |g.members|
            invariant members == ApplyMembers(before, g.members[..j])
          {
            var m := g.members[j];
            assert g.members[..j + 1][..j] == g.members[..j];
            if m.removed {
              members := members - {m.id};
            } else {
              members := members[m.id := Member(m.memberType, m.id)];
            }
          }
          assert g.members[..|g.members|] == g.members;
          groups := groups[g.id := Group(g.id, g.displayName, members)];
        }
      }
      assert value[..|value|] == value;
    }

    /** The delta link moves only when the last page has been applied. */
    method SyncGroups(answers: seq<Answer<GroupEntry>>) returns (ok: bool, asked: seq<string>)
      modifies this`groups, this`groupDeltaLink
      ensures groups == ApplyGroups(old(groups), Delivered(answers))
      ensures ok <==> FinalLink(answers).Some?
      ensures asked == Requested(if old(groupDeltaLink) == "" then groupsURL else old(groupDeltaLink), answers)
      ensures groupDeltaLink == if ok then FinalLink(answers).value else old(groupDeltaLink)
    {
      var url := if groupDeltaLink == "" then groupsURL else groupDeltaLink;
      var i := 0;
      asked := [];
      while i < |answers|
        invariant 0 <= i <= |answers|
        invariant ApplyGroups(groups, Delivered(answers[i..])) == ApplyGroups(old(groups), Delivered(answers))
        invariant FinalLink(answers[i..]) == FinalLink(answers)
        invariant asked + Requested(url, answers[i..]) == Requested(if old(groupDeltaLink) == "" then groupsURL else old(groupDeltaLink), answers)
        invariant groupDeltaLink == old(groupDeltaLink)
      {
        assert answers[i..][0] == answers[i] && answers[i..][1..] == answers[i + 1..];
        ghost var before := asked;
        asked := asked + [url];
        assert forall later :: before + ([url] + later) == asked + later;
        if answers[i].None? {
          return false, asked;
        }
        var page := answers[i].value;
        ApplyGroupsConcat(groups, page.value, Delivered(answers[i + 1..]));
        ApplyGroupPage(page.value);
        if page.nextLink == "" {
          groupDeltaLink := page.deltaLink;
          return true, asked;
        }
        url, i := page.nextLink, i + 1;
      }
      ok := false;
    }

    method ApplyUserPage(value: seq<UserEntry>)
      modifies this`users
      ensures users == ApplyUsers(old(users), value)
    {
      for i := 0 to |value|
        invariant users == ApplyUsers(old(users), value[..i])
      {
        var u := value[i];
        assert value[..i + 1][..i] == value[..i];
        if u.removed {
          users := users - {u.id};
        } else {
          users := users[u.id := User(u.id, u.displayName, u.email)];
        }
      }
      assert value[..|value|] == value;
    }

    method SyncUsers(answers: seq<Answer<UserEntry>>) returns (ok: bool, asked: seq<string>)
      modifies this`users, this`userDeltaLink
      ensures users == ApplyUsers(old(users), Delivered(answers))
      ensures ok <==> FinalLink(answers).Some?
      ensures asked == Requested(if old(userDeltaLink) == "" then usersURL else old(userDeltaLink), answers)
      ensures userDeltaLink == if ok then FinalLink(answers).value else old(userDeltaLink)
    {
      var url := if userDeltaLink == "" then usersURL else userDeltaLink;
      var i := 0;
      asked := [];
      while i < |answers|
        invariant 0 <= i <= |answers|
        invariant ApplyUsers(users, Delivered(answers[i..])) == ApplyUsers(old(users), Delivered(answers))
        invariant FinalLink(answers[i..]) == FinalLink(answers)
        invariant asked + Requested(url, answers[i..]) == Requested(if old(userDeltaLink) == "" then usersURL else old(userDeltaLink), answers)
        invariant userDeltaLink == old(userDeltaLink)
      {
        assert answers[i..][0] == answers[i] && answers[i..][1..] == answers[i + 1..];
        ghost var before := asked;
        asked := asked + [url];
        assert forall later :: before + ([url] + later) == asked + later;
        if answers[i].None? {
          return false, asked;
        }
        var page := answers[i].value;
        ApplyUsersConcat(users, page.value, Delivered(answers[i + 1..]));
        ApplyUserPage(page.value);
        if page.nextLink == "" {
          userDeltaLink := page.deltaLink;
          return true, asked;
        }
        url, i := page.nextLink, i + 1;
      }
      ok := false;
    }
  }

  // --- Pages do not matter, only their entries ---

  lemma {:induction false} ApplyGroupsConcat(groups: Groups, a: seq<GroupEntry>, b: seq<GroupEntry>)
    ensures ApplyGroups(groups, a + b) == ApplyGroups(ApplyGroups(groups, a), b)
  {
    if b == [] {
      assert a + b == a;
    } else {
      ApplyGroupsConcat(groups, a, b[..|b| - 1]);
      assert (a + b)[..|a + b| - 1] == a + b[..|b| - 1];
    }
  }

  lemma {:induction false} ApplyUsersConcat(users: Users, a: seq<UserEntry>, b: seq<UserEntry>)
    ensures ApplyUsers(users, a + b) == ApplyUsers(ApplyUsers(users, a), b)
  {
    if b == [] {
      assert a + b == a;
    } else {
      ApplyUsersConcat(users, a, b[..|b| - 1]);
      assert (a + b)[..|a + b| - 1] == a + b[..|b| - 1];
    }
  }

  // --- The effect of a batch on one group, in normal form ---

  /** Member changes to overlay; `None` removes a member. */
  type MemberChanges = map<string, Option<Member>>

  datatype Effect = Untouched | Merged(displayName: string, changes: MemberChanges) | Replaced(group: Option<Group>)

  function Overlay(members: map<string, Member>, changes: MemberChanges): map<string, Member> {
    map m | m in members.Keys + changes.Keys && (m in changes ==> changes[m].Some?) ::
      if m in changes then changes[m].value else members[m]
  }

  function Collect(changes: MemberChanges, entries: seq<MemberEntry>): MemberChanges {
    if entries == [] then changes
    else
      var m := entries[|entries| - 1];
      Collect(changes, entries[..|entries| - 1])[m.id := if m.removed then None else Some(Member(m.memberType, m.id))]
  }

  function Extend(effect: Effect, e: GroupEntry): Effect {
    if e.removed then Replaced(None)
    else match effect
         case Untouched => Merged(e.displayName, Collect(map[], e.members))
         case Merged(_, changes) => Merged(e.displayName, Collect(changes, e.members))
         case Replaced(g) => Replaced(Some(Group(e.id, e.displayName, ApplyMembers(MembersOf(g), e.members))))
  }

  function EffectOn(id: string, entries: seq<GroupEntry>): Effect {
    if entries == [] then Untouched
    else
      var before, e := EffectOn(id, entries[..|entries| - 1]), entries[|entries| - 1];
      if e.id == id then Extend(before, e) else before
  }

  function Act(id: string, effect: Effect, g: Option<Group>): Option<Group> {
    match effect
    case Untouched => g
    case Merged(name, changes) => Some(Group(id, name, Overlay(MembersOf(g), changes)))
    case Replaced(g') => g'
  }

  lemma OverlayStep(members: map<string, Member>, changes: MemberChanges, m: string, change: Option<Member>)
    ensures Overlay(members, changes[m := change])
         == if change.Some? then Overlay(members, changes)[m := change.value] else Overlay(members, changes) - {m}
  {
  }

  lemma {:induction false} OverlayCollect(members: map<string, Member>, changes: MemberChanges, entries: seq<MemberEntry>)
    ensures ApplyMembers(Overlay(members, changes), entries) == Overlay(members, Collect(changes, entries))
  {
    if entries != [] {
      var init, m := entries[..|entries| - 1], entries[|entries| - 1];
      OverlayCollect(members, changes, init);
      OverlayStep(members, Collect(changes, init), m.id, if m.removed then None else Some(Member(m.memberType, m.id)));
    }
  }

  lemma OverlayNothing(members: map<string, Member>)
    ensures Overlay(members, map[]) == members
  {
  }

  /** A batch acts on each group through its normal form alone. */
  lemma {:induction false} BatchEffect(groups: Groups, entries: seq<GroupEntry>, id: string)
    ensures Lookup(ApplyGroups(groups, entries), id) == Act(id, EffectOn(id, entries), Lookup(groups, id))
  {
    if entries != [] {
      var init, e := entries[..|entries| - 1], entries[|entries| - 1];
      BatchEffect(groups, init, id);
      if e.id == id && !e.removed {
        var members := MembersOf(Lookup(groups, id));
        match EffectOn(id, init) {
          case Untouched =>
            OverlayCollect(members, map[], e.members);
            OverlayNothing(members);
          case Merged(_, changes) => OverlayCollect(members, changes, e.members);
          case Replaced(_) =>
        }
      }
    }
  }

  lemma ActTwice(id: string, effect: Effect, g: Option<Group>)
    ensures Act(id, effect, Act(id, effect, g)) == Act(id, effect, g)
  {
    if effect.Merged? {
      var members := MembersOf(g);
      assert Overlay(Overlay(members, effect.changes), effect.changes) == Overlay(members, effect.changes);
    }
  }

  /** Applying the same batch again changes nothing. */
  lemma ReplayIdempotent(groups: Groups, entries: seq<GroupEntry>)
    ensures ApplyGroups(ApplyGroups(groups, entries), entries) == ApplyGroups(groups, entries)
  {
    var once := ApplyGroups(groups, entries);
    var twice := ApplyGroups(once, entries);
    forall id
      ensures Lookup(twice, id) == Lookup(once, id)
    {
      BatchEffect(groups, entries, id);
      BatchEffect(once, entries, id);
      ActTwice(id, EffectOn(id, entries), Lookup(groups, id));
    }
    SameLookups(twice, once);
  }

  /** An interrupted batch leaves no trace once the whole batch is applied. */
  lemma ReplayAfterPrefix(groups: Groups, applied: seq<GroupEntry>, all: seq<GroupEntry>)
    requires applied <= all
    ensures ApplyGroups(ApplyGroups(groups, applied), all) == ApplyGroups(groups, all)
  {
    var rest := all[|applied|..];
    assert all == applied + rest;
    ApplyGroupsConcat(groups, applied, rest);
    ApplyGroupsConcat(ApplyGroups(groups, applied), applied, rest);
    ReplayIdempotent(groups, applied);
  }

  function ApplyAttempts(groups: Groups, attempts: seq<seq<Answer<GroupEntry>>>): Groups {
    if attempts == [] then groups
    else ApplyGroups(ApplyAttempts(groups, attempts[..|attempts| - 1]), Delivered(attempts[|attempts| - 1]))
  }

  /**
   Main result: any number of syncs that each fail after some prefix of the entries,
   followed by one that delivers them all, end like a single uninterrupted sync,
   however each of them was split into pages.
   */
  lemma {:induction false} FailuresLeaveNoTrace(
    groups: Groups, failed: seq<seq<Answer<GroupEntry>>>, full: seq<Answer<GroupEntry>>)
    requires forall i :: 0 <= i < |failed| ==> Delivered(failed[i]) <= Delivered(full)
    ensures ApplyGroups(ApplyAttempts(groups, failed), Delivered(full)) == ApplyGroups(groups, Delivered(full))
  {
    if failed != [] {
      var init := failed[..|failed| - 1];
      ReplayAfterPrefix(ApplyAttempts(groups, init), Delivered(failed[|failed| - 1]), Delivered(full));
      FailuresLeaveNoTrace(groups, init, full);
    }
  }

  /** A group that was deleted starts over: nothing from before the deletion survives. */
  lemma DeletedGroupStartsOver(groups: Groups, before: seq<GroupEntry>, deletion: GroupEntry, after: seq<GroupEntry>)
    requires deletion.removed
    ensures Lookup(ApplyGroups(groups, before + [deletion] + after), deletion.id)
         == Lookup(ApplyGroups(map[], after), deletion.id)
  {
    var deleted := ApplyGroups(groups, before + [deletion]);
    ApplyGroupsConcat(groups, before + [deletion], after);
    assert (before + [deletion])[..|before|] == before;
    BatchEffect(deleted, after, deletion.id);
    BatchEffect(map[], after, deletion.id);
  }

  // --- Users: the last entry decides ---

  /** A user without entries stays; otherwise the last entry alone decides. */
  lemma {:induction false} LastUserEntryDecides(users: Users, entries: seq<UserEntry>, id: string) returns (last: int)
    ensures -1 <= last < |entries|
    ensures last == -1 ==> forall i :: 0 <= i < |entries| ==> entries[i].id != id
    ensures last != -1 ==> entries[last].id == id && forall i :: last < i < |entries| ==> entries[i].id != id
    ensures Lookup(ApplyUsers(users, entries), id)
         == if last == -1 then Lookup(users, id)
            else if entries[last].removed then None
            else Some(User(id, entries[last].displayName, entries[last].email))
  {
    last := |entries| - 1;
    if entries != [] && entries[last].id != id {
      last := LastUserEntryDecides(users, entries[..last], id);
    }
  }

  lemma UserReplayAt(users: Users, applied: seq<UserEntry>, all: seq<UserEntry>, id: string)
    requires applied <= all
    ensures Lookup(ApplyUsers(ApplyUsers(users, applied), all), id) == Lookup(ApplyUsers(users, all), id)
  {
    var i := LastUserEntryDecides(users, all, id);
    var j := LastUserEntryDecides(ApplyUsers(users, applied), all, id);
    var k := LastUserEntryDecides(users, applied, id);
    assert k != -1 ==> all[k].id == id;
  }

  /** The user sync has the same property. */
  lemma UserReplayAfterPrefix(users: Users, applied: seq<UserEntry>, all: seq<UserEntry>)
    requires applied <= all
    ensures ApplyUsers(ApplyUsers(users, applied), all) == ApplyUsers(users, all)
  {
    forall id
      ensures Lookup(ApplyUsers(ApplyUsers(users, applied), all), id) == Lookup(ApplyUsers(users, all), id)
    {
      UserReplayAt(users, applied, all, id);
    }
    SameLookups(ApplyUsers(ApplyUsers(users, applied), all), ApplyUsers(users, all));
  }
}
