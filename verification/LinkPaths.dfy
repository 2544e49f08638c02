/**
 Runs as a relation between states: with requests issued whenever the bridge is patient, or within
 one exchange, with no further request issued.
 */
module LinkPaths {
  import opened Link

  // Every event enabled; a request is issued only where it may be, and only if patiently.
  ghost predicate Path(issuing: bool, s: System, events: seq<Event>)
    decreases |events|
  {
    events == []
    || (Enabled(s, events[0])
        && (events[0].Issue? ==> issuing && Patient(s))
        && Path(issuing, Step(s, events[0]), events[1..]))
  }

  ghost function After(issuing: bool, s: System, events: seq<Event>): System
    requires Path(issuing, s, events)
    decreases |events|
  {
    if events == [] then s else After(issuing, Step(s, events[0]), events[1..])
  }

  ghost predicate Reaches(issuing: bool, s: System, t: System) {
    exists events :: Path(issuing, s, events) && After(issuing, s, events) == t
  }

  lemma {:induction false} Concatenate(issuing: bool, s: System, first: seq<Event>, second: seq<Event>)
    requires Path(issuing, s, first) && Path(issuing, After(issuing, s, first), second)
    ensures Path(issuing, s, first + second)
    ensures After(issuing, s, first + second) == After(issuing, After(issuing, s, first), second)
    decreases |first|
  {
    hide Step, Enabled, Patient;
    if first == [] {
      assert first + second == second;
    } else {
      Concatenate(issuing, Step(s, first[0]), first[1..], second);
      assert (first + second)[1..] == first[1..] + second;
    }
  }

  lemma ReachesOne(issuing: bool, s: System, e: Event)
    requires Enabled(s, e) && (e.Issue? ==> issuing && Patient(s))
    ensures Reaches(issuing, s, Step(s, e))
  {
    hide Step, Enabled, Patient;
    assert [e][1..] == [];
    assert Path(issuing, Step(s, e), []);
    assert Path(issuing, s, [e]) && After(issuing, s, [e]) == Step(s, e);
  }

  lemma ReachesBoth(issuing: bool, s: System, t: System, u: System)
    requires Reaches(issuing, s, t) && Reaches(issuing, t, u)
    ensures Reaches(issuing, s, u)
  {
    hide Step, Enabled, Patient;
    var first :| Path(issuing, s, first) && After(issuing, s, first) == t;
    var second :| Path(issuing, t, second) && After(issuing, t, second) == u;
    Concatenate(issuing, s, first, second);
  }

  lemma ReachesItself(issuing: bool, s: System)
    ensures Reaches(issuing, s, s)
  {
    assert Path(issuing, s, []) && After(issuing, s, []) == s;
  }

  lemma ReachesStep(issuing: bool, s: System, t: System, e: Event)
    requires Reaches(issuing, s, t) && Enabled(t, e) && (e.Issue? ==> issuing && Patient(t))
    ensures Reaches(issuing, s, Step(t, e))
  {
    hide Step, Enabled, Patient, Reaches;
    ReachesOne(issuing, t, e);
    ReachesBoth(issuing, s, t, Step(t, e));
  }
}
