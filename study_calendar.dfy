/** The study plan (components/StudyCalendar.tsx): a list of sessions that
    the component replaces by a new list on every edit. Days are calendar day
    numbers; `today` is a parameter. */
module StudyCalendar {
  import opened Types
  import opened Text
  import opened Common
  import opened Wrappers

  /** Fixed length, in minutes, of a manually added session. */
  const ManualDuration := 60

  function Flip(st: SessionStatus): SessionStatus {
    match st
    case Pending => Done
    case Done => Pending
  }

  /** `toggleSession`: flip PENDING and DONE on the sessions with that id;
      every other session, the length and the order are kept. */
  function ToggleSession(sessions: seq<StudySession>, id: string): (r: seq<StudySession>)
    ensures |r| == |sessions|
    ensures forall i :: 0 <= i < |sessions| && sessions[i].id != id ==> r[i] == sessions[i]
    ensures forall i :: 0 <= i < |sessions| && sessions[i].id == id ==>
      r[i].status != sessions[i].status && r[i].(status := sessions[i].status) == sessions[i]
  {
    seq(|sessions|, i requires 0 <= i < |sessions| =>
      if sessions[i].id == id then sessions[i].(status := Flip(sessions[i].status)) else sessions[i])
  }

  /** Toggling the same id twice restores the plan. */
  lemma ToggleSessionTwice(sessions: seq<StudySession>, id: string)
    ensures ToggleSession(ToggleSession(sessions, id), id) == sessions
  {
    var once := ToggleSession(sessions, id);
    var twice := ToggleSession(once, id);
    forall i | 0 <= i < |sessions|
      ensures twice[i] == sessions[i]
    {
      if sessions[i].id == id {
        assert twice[i].status == sessions[i].status;
      }
    }
  }

  /** `deleteSession`: keep the sessions whose id differs, in order. */
  function DeleteSession(sessions: seq<StudySession>, id: string): (r: seq<StudySession>)
    ensures forall s :: s in r ==> s in sessions && s.id != id
    ensures forall s :: s in sessions && s.id != id ==> s in r
    ensures |r| <= |sessions|
  {
    if sessions == [] then []
    else if sessions[0].id == id then DeleteSession(sessions[1..], id)
    else [sessions[0]] + DeleteSession(sessions[1..], id)
  }

  /** Deleting distributes over concatenation, so the survivors keep their
      relative order. */
  lemma {:induction false} DeleteSessionAppend(a: seq<StudySession>, b: seq<StudySession>, id: string)
    ensures DeleteSession(a + b, id) == DeleteSession(a, id) + DeleteSession(b, id)
  {
    if a == [] {
      assert a + b == b;
    } else {
      assert (a + b)[0] == a[0];
      assert (a + b)[1..] == a[1..] + b;
      DeleteSessionAppend(a[1..], b, id);
    }
  }

  /** Deleting an id no session has changes nothing. */
  lemma {:induction false} DeleteAbsentId(sessions: seq<StudySession>, id: string)
    requires forall i :: 0 <= i < |sessions| ==> sessions[i].id != id
    ensures DeleteSession(sessions, id) == sessions
  {
    if sessions != [] {
      DeleteAbsentId(sessions[1..], id);
    }
  }

  /** The number of DONE sessions. */
  function DoneCount(sessions: seq<StudySession>): (n: nat)
    ensures n <= |sessions|
    ensures n == 0 <==> forall i :: 0 <= i < |sessions| ==> sessions[i].status == Pending
  {
    if sessions == [] then 0
    else DoneCount(sessions[1..]) + (if sessions[0].status == Done then 1 else 0)
  }

  /** The progress figure: 0 for an empty plan, otherwise the rounded
      percentage of DONE sessions. */
  function Progress(sessions: seq<StudySession>): (p: nat)
    ensures p <= 100
    ensures (forall i :: 0 <= i < |sessions| ==> sessions[i].status == Pending) ==> p == 0
    ensures |sessions| > 0 && (forall i :: 0 <= i < |sessions| ==> sessions[i].status == Done) ==> p == 100
    ensures |sessions| > 0 ==> p == RoundedPercent(DoneCount(sessions), |sessions|)
  {
    if |sessions| > 0 then
      assert (forall i :: 0 <= i < |sessions| ==> sessions[i].status == Done) ==> DoneCount(sessions) == |sessions| by {
        AllDoneCount(sessions);
      }
      RoundedPercent(DoneCount(sessions), |sessions|)
    else 0
  }

  lemma {:induction false} AllDoneCount(sessions: seq<StudySession>)
    ensures (forall i :: 0 <= i < |sessions| ==> sessions[i].status == Done) ==> DoneCount(sessions) == |sessions|
  {
    if sessions != [] {
      AllDoneCount(sessions[1..]);
      assert forall i :: 1 <= i < |sessions| ==> sessions[1..][i - 1] == sessions[i];
    }
  }

  /** The manual form: topic, focus, type and whether it is shown. */
  datatype ManualForm = ManualForm(topic: string, focus: string, stype: SessionType, shown: bool)

  /** `addManualSession`: with an empty topic or focus nothing happens;
      otherwise one PENDING one-hour session for today is appended and the
      form's topic and focus are cleared and the form hidden. */
  function AddManualSession(sessions: seq<StudySession>, form: ManualForm, id: string, today: int): (r: (seq<StudySession>, ManualForm))
    ensures form.topic == "" || form.focus == "" ==> r == (sessions, form)
    ensures form.topic != "" && form.focus != "" ==>
      && r.0 == sessions + [StudySession(id, today, form.topic, form.focus, form.stype, ManualDuration, Pending)]
      && r.1 == ManualForm("", "", form.stype, false)
  {
    if form.topic == "" || form.focus == "" then (sessions, form)
    else
      (sessions + [StudySession(id, today, form.topic, form.focus, form.stype, ManualDuration, Pending)],
       form.(topic := "", focus := "", shown := false))
  }

  /** One session proposed by the planning service. */
  datatype PlanItem = PlanItem(topic: string, focus: string, stype: SessionType, duration: int)

  /** The sessions built from the planner's list: the i-th gets id
      `stamp + i`, is PENDING and falls `i / 2` days after today. */
  function BuildSessions(items: seq<PlanItem>, stamp: string, today: int): (r: seq<StudySession>)
    ensures |r| == |items|
    ensures forall i :: 0 <= i < |items| ==>
      && r[i].status == Pending
      && r[i].date == today + i / 2
      && r[i].id == stamp + NatToString(i)
      && r[i].topic == items[i].topic && r[i].focus == items[i].focus
      && r[i].stype == items[i].stype && r[i].duration == items[i].duration
  {
    seq(|items|, i requires 0 <= i < |items| =>
      StudySession(stamp + NatToString(i), today + i / 2, items[i].topic, items[i].focus,
                   items[i].stype, items[i].duration, Pending))
  }

  /** `generateScheduleAI`: the built sessions go after the existing ones; a
      failed or unreadable planner reply leaves the plan unchanged. */
  function AppendGenerated(sessions: seq<StudySession>, reply: Option<seq<PlanItem>>, stamp: string, today: int): (r: seq<StudySession>)
    ensures reply.None? ==> r == sessions
    ensures reply.Some? ==> |r| == |sessions| + |reply.value| && r[..|sessions|] == sessions
    ensures reply.Some? ==> r[|sessions|..] == BuildSessions(reply.value, stamp, today)
    ensures reply.Some? ==> forall i :: |sessions| <= i < |r| ==>
      r[i].status == Pending && r[i].date == today + (i - |sessions|) / 2
  {
    match reply
    case None => sessions
    case Some(items) => sessions + BuildSessions(items, stamp, today)
  }

  /** Generated sessions have pairwise distinct ids. */
  lemma BuiltIdsDistinct(items: seq<PlanItem>, stamp: string, today: int)
    ensures var r := BuildSessions(items, stamp, today);
            forall i, j :: 0 <= i < j < |r| ==> r[i].id != r[j].id
  {
    var r := BuildSessions(items, stamp, today);
    forall i, j | 0 <= i < j < |r|
      ensures r[i].id != r[j].id
    {
      if r[i].id == r[j].id {
        var a, b := NatToString(i), NatToString(j);
        assert stamp + a == stamp + b;
        assert a == (stamp + a)[|stamp|..];
        assert b == (stamp + b)[|stamp|..];
        NatToStringInjective(i, j);
      }
    }
  }
}
