/** The session store (`useSessionState`): a list of sessions and the id of
    the current one, changed only through its commands. Persistence to
    browser storage is not modelled; what was saved is passed to `Load`. */
module SessionState {
  import opened Types
  import opened Text
  import VersionManager

  /** The readings of the clock a command takes: `Date.now()`, and the time
      written by `toISOString()`, `toLocaleString()` and
      `toLocaleString('zh-CN')`. */
  datatype Clock = Clock(millis: nat, iso: string, locale: string, localeZh: string)

  /** `` `session_${Date.now()}` `` */
  function SessionId(c: Clock): string {
    "session_" + NatToString(c.millis)
  }

  /** The data of a fresh session. */
  function DefaultData(localeZh: string): SessionData {
    SessionData("", [], [], false, 10, 5, "p1_p2", "mixed", "phone_robot", 0,
                [VersionManager.InitialVersion(localeZh)], "V1")
  }

  /** `createNewSession`: no test cases, the single version V1 (current) and
      a concurrency of 5; an empty or missing name becomes "会话<local time>". */
  function NewSession(name: Option<string>, c: Clock): (s: Session)
    ensures s.id == SessionId(c) && s.createdAt == c.iso && s.updatedAt == c.iso
    ensures s.data.testCases == [] && s.data.concurrentCount == 5
    ensures |s.data.promptVersions| == 1 && s.data.promptVersions[0].version == "V1"
    ensures s.data.currentVersion == "V1"
    ensures Truthy(name) ==> s.name == name.value
    ensures !Truthy(name) ==> s.name == "会话" + c.locale
  {
    Session(SessionId(c), if Truthy(name) then name.value else "会话" + c.locale, c.iso, c.iso, DefaultData(c.localeZh))
  }

  /** A `Partial<data>`: each field either given or left out. */
  datatype DataUpdate = DataUpdate(
    testCasesText: Option<string>,
    testCases: Option<seq<TestCase>>,
    evaluationCriteria: Option<seq<Criterion>>,
    criteriaGenerated: Option<bool>,
    generateCount: Option<int>,
    concurrentCount: Option<int>,
    testCaseLevel: Option<string>,
    openingStyle: Option<string>,
    criteriaScenario: Option<string>,
    progress: Option<int>,
    promptVersions: Option<seq<PromptVersion>>,
    currentVersion: Option<string>)

  const NoUpdate := DataUpdate(None, None, None, None, None, None, None, None, None, None, None, None)

  /** `{ ...d, ...u }`: the given fields override, the others stay. */
  function Merge(d: SessionData, u: DataUpdate): SessionData {
    SessionData(
      u.testCasesText.GetOr(d.testCasesText),
      u.testCases.GetOr(d.testCases),
      u.evaluationCriteria.GetOr(d.evaluationCriteria),
      u.criteriaGenerated.GetOr(d.criteriaGenerated),
      u.generateCount.GetOr(d.generateCount),
      u.concurrentCount.GetOr(d.concurrentCount),
      u.testCaseLevel.GetOr(d.testCaseLevel),
      u.openingStyle.GetOr(d.openingStyle),
      u.criteriaScenario.GetOr(d.criteriaScenario),
      u.progress.GetOr(d.progress),
      u.promptVersions.GetOr(d.promptVersions),
      u.currentVersion.GetOr(d.currentVersion))
  }

  /** An empty update changes nothing, applying an update twice is applying
      it once, and a later update wins over an earlier one on every field
      both give. */
  lemma MergeLaws(d: SessionData, u: DataUpdate, v: DataUpdate)
    ensures Merge(d, NoUpdate) == d
    ensures Merge(Merge(d, u), u) == Merge(d, u)
    ensures v.testCases.Some? ==> Merge(Merge(d, u), v).testCases == v.testCases.value
    ensures v.promptVersions.Some? ==> Merge(Merge(d, u), v).promptVersions == v.promptVersions.value
    ensures v.testCases.None? && v.promptVersions.None? ==>
      Merge(Merge(d, u), v).testCases == Merge(d, u).testCases
      && Merge(Merge(d, u), v).promptVersions == Merge(d, u).promptVersions
  {
  }

  // ---------------------------------------------------------------------
  // The transforms behind the commands

  /** The first session with id `id` (`sessions.find`). */
  function FindSession(ss: seq<Session>, id: string): (r: Option<Session>)
    ensures r.Some? <==> exists k :: 0 <= k < |ss| && ss[k].id == id
    ensures r.Some? ==> r.value in ss && r.value.id == id
    ensures r.Some? ==> exists k :: 0 <= k < |ss| && ss[k] == r.value
                                    && forall m :: 0 <= m < k ==> ss[m].id != id
  {
    if ss == [] then None
    else if ss[0].id == id then Some(ss[0])
    else
      var r := FindSession(ss[1..], id);
      assert r.Some? ==> (exists k :: 0 <= k < |ss[1..]| && ss[1..][k].id == id);
      assert (exists k :: 1 <= k < |ss| && ss[k].id == id) ==> (exists k :: 0 <= k < |ss[1..]| && ss[1..][k].id == id);
      if r.Some? then
        var k :| 0 <= k < |ss[1..]| && ss[1..][k] == r.value && forall m :: 0 <= m < k ==> ss[1..][m].id != id;
        assert ss[k + 1] == r.value && forall m :: 0 <= m < k + 1 ==> ss[m].id != id;
        r
      else r
  }

  predicate HasId(ss: seq<Session>, id: string) {
    exists k :: 0 <= k < |ss| && ss[k].id == id
  }

  /** The data update applied to every session whose id matches, with its
      update time refreshed; every other session is kept as it was. */
  function UpdateWhere(ss: seq<Session>, id: string, u: DataUpdate, iso: string): (r: seq<Session>)
    ensures |r| == |ss|
    ensures forall k :: 0 <= k < |ss| ==>
      r[k].id == ss[k].id && r[k].name == ss[k].name && r[k].createdAt == ss[k].createdAt
    ensures forall k :: 0 <= k < |ss| && ss[k].id != id ==> r[k] == ss[k]
    ensures forall k :: 0 <= k < |ss| && ss[k].id == id ==>
      r[k].data == Merge(ss[k].data, u) && r[k].updatedAt == iso
  {
    if ss == [] then []
    else
      var s := ss[0];
      [if s.id == id then s.(data := Merge(s.data, u), updatedAt := iso) else s] + UpdateWhere(ss[1..], id, u, iso)
  }

  /** Every session with the id is renamed, with its update time refreshed. */
  function RenameWhere(ss: seq<Session>, id: string, name: string, iso: string): (r: seq<Session>)
    ensures |r| == |ss|
    ensures forall k :: 0 <= k < |ss| && ss[k].id != id ==> r[k] == ss[k]
    ensures forall k :: 0 <= k < |ss| && ss[k].id == id ==> r[k] == ss[k].(name := name, updatedAt := iso)
  {
    if ss == [] then []
    else
      var s := ss[0];
      [if s.id == id then s.(name := name, updatedAt := iso) else s] + RenameWhere(ss[1..], id, name, iso)
  }

  /** Every session with the id removed, the rest in their order. */
  function Without(ss: seq<Session>, id: string): (r: seq<Session>)
    ensures |r| <= |ss|
    ensures forall s :: s in r <==> s in ss && s.id != id
  {
    if ss == [] then []
    else if ss[0].id == id then Without(ss[1..], id)
    else [ss[0]] + Without(ss[1..], id)
  }

  /** Removing an id no session has keeps the list as it is. */
  lemma {:induction false} WithoutAbsent(ss: seq<Session>, id: string)
    requires !HasId(ss, id)
    ensures Without(ss, id) == ss
  {
    if ss != [] {
      assert ss[0].id != id;
      assert !HasId(ss[1..], id) by {
        forall k | 0 <= k < |ss[1..]| ensures ss[1..][k].id != id {
          assert ss[1..][k] == ss[k + 1];
        }
      }
      WithoutAbsent(ss[1..], id);
    }
  }

  /** A session found under a new name after renaming. */
  lemma {:induction false} RenameThenFind(ss: seq<Session>, id: string, name: string, iso: string)
    requires HasId(ss, id)
    ensures var r := FindSession(RenameWhere(ss, id, name, iso), id);
      r.Some? && r.value == FindSession(ss, id).value.(name := name, updatedAt := iso)
  {
    if ss[0].id != id {
      assert HasId(ss[1..], id) by {
        var k :| 0 <= k < |ss| && ss[k].id == id;
        assert ss[1..][k - 1] == ss[k];
      }
      RenameThenFind(ss[1..], id, name, iso);
      assert RenameWhere(ss, id, name, iso)[1..] == RenameWhere(ss[1..], id, name, iso);
    }
  }

  /** `duplicateSession`'s copy: a fresh id and times, the name with
      " (副本)" appended, and the same data. */
  function Copy(original: Session, c: Clock): (s: Session)
    ensures s.data == original.data && s.name == original.name + " (副本)"
    ensures s.id == SessionId(c)
  {
    original.(id := SessionId(c), name := original.name + " (副本)", createdAt := c.iso, updatedAt := c.iso)
  }

  // ---------------------------------------------------------------------
  // The store

  class SessionStore {
    var sessions: seq<Session>
    var currentId: string

    constructor()
      ensures sessions == [] && currentId == ""
    {
      sessions := [];
      currentId := "";
    }

    /** The current session, if one has the current id. */
    function Current(): Option<Session>
      reads this
    {
      FindSession(sessions, currentId)
    }

    /** Loading what was saved: the saved list, with the saved current id if
        one of the sessions has it and the first session otherwise (an empty
        list leaves the current id alone); with nothing saved, a single
        default session, made current. */
    method Load(saved: Option<seq<Session>>, savedCurrentId: Option<string>, c: Clock)
      modifies this
      ensures saved.Some? ==> sessions == saved.value
      ensures saved.Some? && Truthy(savedCurrentId) && HasId(saved.value, savedCurrentId.value) ==>
        currentId == savedCurrentId.value
      ensures saved.Some? && !(Truthy(savedCurrentId) && HasId(saved.value, savedCurrentId.value)) ==>
        currentId == (if |saved.value| > 0 then saved.value[0].id else old(currentId))
      ensures saved.None? ==> sessions == [NewSession(Some("默认会话"), c)] && currentId == SessionId(c)
    {
      match saved
      case Some(parsed) =>
        sessions := parsed;
        if Truthy(savedCurrentId) && HasId(parsed, savedCurrentId.value) {
          currentId := savedCurrentId.value;
        } else if |parsed| > 0 {
          currentId := parsed[0].id;
        }
      case None =>
        var d := NewSession(Some("默认会话"), c);
        sessions := [d];
        currentId := d.id;
    }

    /** `createSession`: the new session goes last and becomes current. */
    method CreateSession(name: Option<string>, c: Clock) returns (s: Session)
      modifies this
      ensures s == NewSession(name, c)
      ensures sessions == old(sessions) + [s] && currentId == s.id
    {
      s := NewSession(name, c);
      sessions := sessions + [s];
      currentId := s.id;
    }

    method SwitchSession(id: string)
      modifies this
      ensures sessions == old(sessions) && currentId == id
    {
      currentId := id;
    }

    /** `updateCurrentSession`: only sessions with the current id change. */
    method UpdateCurrentSession(u: DataUpdate, c: Clock)
      modifies this
      ensures sessions == UpdateWhere(old(sessions), old(currentId), u, c.iso)
      ensures currentId == old(currentId)
    {
      sessions := UpdateWhere(sessions, currentId, u, c.iso);
    }

    method RenameSession(id: string, name: string, c: Clock)
      modifies this
      ensures sessions == RenameWhere(old(sessions), id, name, c.iso)
      ensures currentId == old(currentId)
    {
      sessions := RenameWhere(sessions, id, name, c.iso);
    }

    /** `deleteSession`: every session with the id goes; deleting the current
        one moves the current id to the first remaining session, or leaves it
        dangling when none remains. */
    method DeleteSession(id: string)
      modifies this
      ensures sessions == Without(old(sessions), id)
      ensures id == old(currentId) && |sessions| > 0 ==> currentId == sessions[0].id
      ensures !(id == old(currentId) && |sessions| > 0) ==> currentId == old(currentId)
    {
      var filtered := Without(sessions, id);
      if id == currentId && |filtered| > 0 {
        currentId := filtered[0].id;
      }
      sessions := filtered;
    }

    /** `duplicateSession`: a copy of the first session with the id goes last
        and becomes current; an unknown id changes nothing. */
    method DuplicateSession(id: string, c: Clock)
      modifies this
      ensures FindSession(old(sessions), id).None? ==> sessions == old(sessions) && currentId == old(currentId)
      ensures FindSession(old(sessions), id).Some? ==>
        sessions == old(sessions) + [Copy(FindSession(old(sessions), id).value, c)] && currentId == SessionId(c)
    {
      var original := FindSession(sessions, id);
      if original.Some? {
        var s := Copy(original.value, c);
        sessions := sessions + [s];
        currentId := s.id;
      }
    }
  }

  /** A created session whose id is new is the current session afterwards. */
  lemma CreatedIsCurrent(ss: seq<Session>, s: Session)
    requires !HasId(ss, s.id)
    ensures FindSession(ss + [s], s.id) == Some(s)
  {
    FindLast(ss, s);
  }

  lemma {:induction false} FindLast(ss: seq<Session>, s: Session)
    requires !HasId(ss, s.id)
    ensures FindSession(ss + [s], s.id) == Some(s)
  {
    if ss != [] {
      assert (ss + [s])[1..] == ss[1..] + [s];
      assert !HasId(ss[1..], s.id) by {
        forall k | 0 <= k < |ss[1..]| ensures ss[1..][k].id != s.id {
          assert ss[1..][k] == ss[k + 1];
        }
      }
      FindLast(ss[1..], s);
    }
  }

  /** After loading a non-empty saved list, the current session exists. */
  lemma LoadedCurrentExists(parsed: seq<Session>, savedCurrentId: Option<string>)
    requires |parsed| > 0
    ensures var id := if Truthy(savedCurrentId) && HasId(parsed, savedCurrentId.value) then savedCurrentId.value else parsed[0].id;
      FindSession(parsed, id).Some?
  {
  }
}
