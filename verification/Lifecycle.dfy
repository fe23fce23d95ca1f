/** The item state machine of app/items/lifecycle.py. */
module Lifecycle {
  datatype Status = Idea | Backlog | Spec | InProgress | Blocked | InReview | Done | Discarded

  predicate Terminal(s: Status) {
    s == Done || s == Discarded
  }

  function Transitions(s: Status): set<Status> {
    match s
    case Idea => {Backlog, Spec, InProgress, Discarded}
    case Backlog => {Spec, InProgress, Blocked, Done, Discarded}
    case Spec => {Backlog, InProgress, Blocked, Discarded}
    case InProgress => {Backlog, Blocked, InReview, Done, Discarded}
    case Blocked => {Backlog, InProgress, Discarded}
    case InReview => {InProgress, Blocked, Done, Discarded}
    case Done => {Backlog}
    case Discarded => {Backlog}
  }

  predicate ValidTransition(from: Status, to: Status) {
    from == to || to in Transitions(from)
  }

  /** The table read the other way: where each status can be entered from. Open items can always
      be discarded, and closed ones only reopened. */
  lemma EnteredFrom(s: Status)
    ensures Idea !in Transitions(s)
    ensures Backlog in Transitions(s) <==> s != Backlog && s != InReview
    ensures Spec in Transitions(s) <==> s == Idea || s == Backlog
    ensures InProgress in Transitions(s) <==> !Terminal(s) && s != InProgress
    ensures Blocked in Transitions(s) <==> s == Backlog || s == Spec || s == InProgress || s == InReview
    ensures InReview in Transitions(s) <==> s == InProgress
    ensures Done in Transitions(s) <==> s == Backlog || s == InProgress || s == InReview
    ensures Discarded in Transitions(s) <==> s != Done && s != Discarded
    ensures Terminal(s) <==> Transitions(s) == {Backlog}
  {
    assert s.Done? || s.Discarded? || Discarded in Transitions(s);
  }
}
