/**
 * Match requests: the record, the queries the handlers run over the
 * `match_requests` table, the status transitions, and the rule that at most
 * one request per (mentor, mentee) pair is pending.
 */
module Requests {
  import opened Http
  import opened Seqs
  import opened Directory

  datatype Status = Pending | Accepted | Rejected | Cancelled

  /** One row of the `match_requests` table. */
  datatype MatchRequest = MatchRequest(id: int, mentorId: int, menteeId: int, message: string, status: Status)

  /** Which of a request's two users a lookup is scoped to. */
  datatype Side = AsMentor | AsMentee

  function PartyId(r: MatchRequest, side: Side): int {
    match side
    case AsMentor => r.mentorId
    case AsMentee => r.menteeId
  }

  /** A request as a response body; the outgoing list leaves out the message. */
  datatype RequestView = RequestView(id: int, mentorId: int, menteeId: int, message: Option<string>, status: Status)

  function FullView(r: MatchRequest): (v: RequestView)
    ensures v.id == r.id && v.mentorId == r.mentorId && v.menteeId == r.menteeId && v.status == r.status
    ensures v.message == Some(r.message)
  {
    RequestView(r.id, r.mentorId, r.menteeId, Some(r.message), r.status)
  }

  function OutgoingView(r: MatchRequest): (v: RequestView)
    ensures v.id == r.id && v.mentorId == r.mentorId && v.menteeId == r.menteeId && v.status == r.status
    ensures v.message.None?
  {
    RequestView(r.id, r.mentorId, r.menteeId, None, r.status)
  }

  /* ---------------- Table invariants ---------------- */

  predicate IsPendingFor(r: MatchRequest, mentorId: int, menteeId: int) {
    r.mentorId == mentorId && r.menteeId == menteeId && r.status == Pending
  }

  /** The duplicate check of request creation. */
  predicate HasPending(rs: seq<MatchRequest>, mentorId: int, menteeId: int) {
    exists i :: 0 <= i < |rs| && IsPendingFor(rs[i], mentorId, menteeId)
  }

  /** At most one pending request per (mentor, mentee) pair. */
  predicate PendingUnique(rs: seq<MatchRequest>) {
    forall i, j :: 0 <= i < |rs| && 0 <= j < |rs| && i != j && rs[i].status == Pending ==>
      !IsPendingFor(rs[j], rs[i].mentorId, rs[i].menteeId)
  }

  /**
   * The `match_requests` table: ids positive, below the next id and
   * increasing in storage order; pending requests unique per pair.
   */
  predicate RequestsWellFormed(rs: seq<MatchRequest>, nextId: int) {
    && 1 <= nextId
    && (forall i :: 0 <= i < |rs| ==> 1 <= rs[i].id < nextId)
    && (forall i, j :: 0 <= i < j < |rs| ==> rs[i].id < rs[j].id)
    && PendingUnique(rs)
  }

  /** Every request names a stored mentor and a stored mentee. */
  predicate ReferencesResolve(users: seq<User>, rs: seq<MatchRequest>) {
    forall i :: 0 <= i < |rs| ==>
      IsUserWithRole(users, rs[i].mentorId, Mentor) && IsUserWithRole(users, rs[i].menteeId, Mentee)
  }

  /* ---------------- Queries ---------------- */

  /**
   * `filter(MatchRequest.id == id, <side>_id == userId).first()`: the request
   * with that id, provided it belongs to `userId` on that side.
   */
  function Find(rs: seq<MatchRequest>, id: int, side: Side, userId: int): (r: Option<nat>)
    ensures r.Some? ==> r.value < |rs| && rs[r.value].id == id && PartyId(rs[r.value], side) == userId
    ensures r.Some? ==> forall j :: 0 <= j < r.value ==> !(rs[j].id == id && PartyId(rs[j], side) == userId)
    ensures r.None? ==> forall j :: 0 <= j < |rs| ==> !(rs[j].id == id && PartyId(rs[j], side) == userId)
  {
    if rs == [] then None
    else if rs[0].id == id && PartyId(rs[0], side) == userId then Some(0)
    else match Find(rs[1..], id, side, userId)
      case None => None
      case Some(k) => Some(k + 1)
  }

  /** The requests in which `userId` is on `side`, whatever their status. */
  function Listed(rs: seq<MatchRequest>, side: Side, userId: int): (mine: seq<MatchRequest>)
    ensures forall q {:trigger multiset(mine)[q]} :: multiset(mine)[q] == if PartyId(q, side) == userId then multiset(rs)[q] else 0
    ensures forall q :: q in mine ==> q in rs && PartyId(q, side) == userId
  {
    Filter(rs, (r: MatchRequest) => PartyId(r, side) == userId)
  }

  /**
   * `GET /match-requests/incoming`: 401 without a valid token, 403 unless a
   * mentor, else every request addressed to the caller.
   */
  function Incoming(users: seq<User>, rs: seq<MatchRequest>, subject: Option<int>): (r: Result<seq<RequestView>>)
    ensures Authenticate(users, subject).Err? ==> r == Err(Unauthorized)
    ensures Authenticate(users, subject).Ok? ==>
              (r.Err? <==> users[Authenticate(users, subject).value].role != Mentor)
    ensures Authenticate(users, subject).Ok? && users[Authenticate(users, subject).value].role != Mentor ==>
              r == Err(Forbidden)
    ensures r.Err? ==> r.error in {Unauthorized, Forbidden}
    ensures r.Ok? ==> |r.value| == |Listed(rs, AsMentor, subject.value)|
    ensures r.Ok? ==> forall k :: 0 <= k < |r.value| ==> r.value[k] == FullView(Listed(rs, AsMentor, subject.value)[k])
    ensures r.Ok? ==> forall q :: q in rs ==>
              (FullView(q) in r.value <==> q.mentorId == subject.value)
  {
    match Authenticate(users, subject)
    case Err(e) => Err(e)
    case Ok(i) =>
      if users[i].role != Mentor then Err(Forbidden)
      else
        var mine := Listed(rs, AsMentor, users[i].id);
        var views := seq(|mine|, k requires 0 <= k < |mine| => FullView(mine[k]));
        assert forall q :: q in rs && q.mentorId == users[i].id ==> FullView(q) in views by {
          forall q | q in rs && q.mentorId == users[i].id ensures FullView(q) in views {
            assert multiset(mine)[q] == multiset(rs)[q];
            var k :| 0 <= k < |mine| && mine[k] == q;
            assert views[k] == FullView(q);
          }
        }
        assert forall v :: v in views ==> v.mentorId == users[i].id by {
          forall v | v in views ensures v.mentorId == users[i].id {
            var k :| 0 <= k < |views| && views[k] == v;
            assert mine[k] in mine;
          }
        }
        Ok(views)
  }

  /**
   * `GET /match-requests/outgoing`: 401 without a valid token, 403 unless a
   * mentee, else every request the caller sent, without its message.
   */
  function Outgoing(users: seq<User>, rs: seq<MatchRequest>, subject: Option<int>): (r: Result<seq<RequestView>>)
    ensures Authenticate(users, subject).Err? ==> r == Err(Unauthorized)
    ensures Authenticate(users, subject).Ok? ==>
              (r.Err? <==> users[Authenticate(users, subject).value].role != Mentee)
    ensures Authenticate(users, subject).Ok? && users[Authenticate(users, subject).value].role != Mentee ==>
              r == Err(Forbidden)
    ensures r.Err? ==> r.error in {Unauthorized, Forbidden}
    ensures r.Ok? ==> |r.value| == |Listed(rs, AsMentee, subject.value)|
    ensures r.Ok? ==> forall k :: 0 <= k < |r.value| ==> r.value[k] == OutgoingView(Listed(rs, AsMentee, subject.value)[k])
    ensures r.Ok? ==> forall v :: v in r.value ==> v.message.None?
    ensures r.Ok? ==> forall q :: q in rs ==>
              (OutgoingView(q) in r.value <==> q.menteeId == subject.value)
  {
    match Authenticate(users, subject)
    case Err(e) => Err(e)
    case Ok(i) =>
      if users[i].role != Mentee then Err(Forbidden)
      else
        var mine := Listed(rs, AsMentee, users[i].id);
        var views := seq(|mine|, k requires 0 <= k < |mine| => OutgoingView(mine[k]));
        assert forall q :: q in rs && q.menteeId == users[i].id ==> OutgoingView(q) in views by {
          forall q | q in rs && q.menteeId == users[i].id ensures OutgoingView(q) in views {
            assert multiset(mine)[q] == multiset(rs)[q];
            var k :| 0 <= k < |mine| && mine[k] == q;
            assert views[k] == OutgoingView(q);
          }
        }
        assert forall v :: v in views ==> v.menteeId == users[i].id by {
          forall v | v in views ensures v.menteeId == users[i].id {
            var k :| 0 <= k < |views| && views[k] == v;
            assert mine[k] in mine;
          }
        }
        Ok(views)
  }

  /* ---------------- Transitions ---------------- */

  /** The new request of a successful creation: pending, with the fresh id. */
  function NewRequest(id: int, mentorId: int, menteeId: int, message: string): (r: MatchRequest)
    ensures r.id == id && r.message == message
    ensures IsPendingFor(r, mentorId, menteeId)
  {
    MatchRequest(id, mentorId, menteeId, message, Pending)
  }

  /** Set the status of the request at `k`, with no check of its current status. */
  function WithStatus(rs: seq<MatchRequest>, k: nat, st: Status): (rs': seq<MatchRequest>)
    requires k < |rs|
    ensures |rs'| == |rs| && rs'[k].status == st
    ensures rs'[k].id == rs[k].id && rs'[k].mentorId == rs[k].mentorId
    ensures rs'[k].menteeId == rs[k].menteeId && rs'[k].message == rs[k].message
    ensures forall i :: 0 <= i < |rs| && i != k ==> rs'[i] == rs[i]
  {
    rs[k := rs[k].(status := st)]
  }

  /** One step of acceptance's cascade: another pending request to this mentor is rejected. */
  function Demote(r: MatchRequest, mentorId: int, acceptedId: int): MatchRequest {
    if r.mentorId == mentorId && r.status == Pending && r.id != acceptedId then r.(status := Rejected) else r
  }

  function Cascade(rs: seq<MatchRequest>, mentorId: int, acceptedId: int): (rs': seq<MatchRequest>)
    ensures |rs'| == |rs|
    ensures forall i :: 0 <= i < |rs| ==>
              && rs'[i].(status := rs[i].status) == rs[i]
              && (rs'[i] != rs[i] <==> rs[i].mentorId == mentorId && rs[i].status == Pending && rs[i].id != acceptedId)
    ensures forall i :: 0 <= i < |rs| && rs'[i] != rs[i] ==> rs'[i].status == Rejected
    ensures forall i :: 0 <= i < |rs| && rs'[i].mentorId == mentorId && rs'[i].id != acceptedId ==>
              rs'[i].status != Pending
  {
    seq(|rs|, i requires 0 <= i < |rs| => Demote(rs[i], mentorId, acceptedId))
  }

  /** The table after the mentor accepts the request at `k`. */
  function AfterAccept(rs: seq<MatchRequest>, k: nat, mentorId: int): (rs': seq<MatchRequest>)
    requires k < |rs|
    ensures |rs'| == |rs| && rs'[k] == rs[k].(status := Accepted)
    ensures forall i :: 0 <= i < |rs| ==> rs'[i].(status := rs[i].status) == rs[i]
  {
    Cascade(rs, mentorId, rs[k].id)[k := rs[k].(status := Accepted)]
  }

  /**
   * What acceptance does: the target becomes accepted whatever it was, the
   * mentor's other pending requests become rejected, every other request is
   * unchanged, and none of the mentor's requests is left pending.
   */
  lemma AcceptEffect(rs: seq<MatchRequest>, k: nat, mentorId: int)
    requires k < |rs| && rs[k].mentorId == mentorId
    requires forall i, j :: 0 <= i < j < |rs| ==> rs[i].id < rs[j].id
    ensures |AfterAccept(rs, k, mentorId)| == |rs|
    ensures AfterAccept(rs, k, mentorId)[k] == rs[k].(status := Accepted)
    ensures forall i :: 0 <= i < |rs| && i != k && rs[i].mentorId == mentorId && rs[i].status == Pending ==>
              AfterAccept(rs, k, mentorId)[i] == rs[i].(status := Rejected)
    ensures forall i :: 0 <= i < |rs| && i != k && !(rs[i].mentorId == mentorId && rs[i].status == Pending) ==>
              AfterAccept(rs, k, mentorId)[i] == rs[i]
    ensures forall i :: 0 <= i < |rs| && AfterAccept(rs, k, mentorId)[i].mentorId == mentorId ==>
              AfterAccept(rs, k, mentorId)[i].status != Pending
  {
    var after := AfterAccept(rs, k, mentorId);
    forall i | 0 <= i < |rs| && i != k
      ensures rs[i].id != rs[k].id
    {
      if i < k { assert rs[i].id < rs[k].id; } else { assert rs[k].id < rs[i].id; }
    }
  }

  /**
   * A table update that changes only statuses and never makes a request
   * pending keeps the table well formed (pending requests unique included)
   * and keeps every reference resolving.
   */
  lemma NoNewPendingKeepsWellFormed(users: seq<User>, rs: seq<MatchRequest>, rs': seq<MatchRequest>, nextId: int)
    requires RequestsWellFormed(rs, nextId) && ReferencesResolve(users, rs) && |rs'| == |rs|
    requires forall i :: 0 <= i < |rs| ==>
               && rs'[i].id == rs[i].id && rs'[i].mentorId == rs[i].mentorId && rs'[i].menteeId == rs[i].menteeId
               && (rs'[i].status == Pending ==> rs[i].status == Pending)
    ensures RequestsWellFormed(rs', nextId) && ReferencesResolve(users, rs')
  {
    forall i, j | 0 <= i < |rs'| && 0 <= j < |rs'| && i != j && rs'[i].status == Pending
      ensures !IsPendingFor(rs'[j], rs'[i].mentorId, rs'[i].menteeId)
    {
      assert !IsPendingFor(rs[j], rs[i].mentorId, rs[i].menteeId);
    }
  }

  /** Acceptance keeps the table well formed, pending requests unique included. */
  lemma AcceptKeepsWellFormed(users: seq<User>, rs: seq<MatchRequest>, k: nat, mentorId: int, nextId: int)
    requires k < |rs| && RequestsWellFormed(rs, nextId) && ReferencesResolve(users, rs)
    ensures RequestsWellFormed(AfterAccept(rs, k, mentorId), nextId)
    ensures ReferencesResolve(users, AfterAccept(rs, k, mentorId))
  {
    NoNewPendingKeepsWellFormed(users, rs, AfterAccept(rs, k, mentorId), nextId);
  }

  /** Rejection and cancellation keep the table well formed, pending requests unique included. */
  lemma ResolveKeepsWellFormed(users: seq<User>, rs: seq<MatchRequest>, k: nat, st: Status, nextId: int)
    requires k < |rs| && RequestsWellFormed(rs, nextId) && ReferencesResolve(users, rs) && st != Pending
    ensures RequestsWellFormed(WithStatus(rs, k, st), nextId)
    ensures ReferencesResolve(users, WithStatus(rs, k, st))
  {
    NoNewPendingKeepsWellFormed(users, rs, WithStatus(rs, k, st), nextId);
  }

  /** Adding a user leaves every request's references resolving. */
  lemma NewUserKeepsReferences(users: seq<User>, rs: seq<MatchRequest>, u: User)
    requires ReferencesResolve(users, rs)
    ensures ReferencesResolve(users + [u], rs)
  {
    forall i | 0 <= i < |rs|
      ensures IsUserWithRole(users + [u], rs[i].mentorId, Mentor) && IsUserWithRole(users + [u], rs[i].menteeId, Mentee)
    {
      var a :| 0 <= a < |users| && users[a].id == rs[i].mentorId && users[a].role == Mentor;
      var b :| 0 <= b < |users| && users[b].id == rs[i].menteeId && users[b].role == Mentee;
      assert (users + [u])[a] == users[a] && (users + [u])[b] == users[b];
    }
  }

  /** Creation after a failed duplicate check keeps pending requests unique. */
  lemma CreateKeepsPendingUnique(rs: seq<MatchRequest>, r: MatchRequest)
    requires PendingUnique(rs) && !HasPending(rs, r.mentorId, r.menteeId)
    ensures PendingUnique(rs + [r])
  {
    var rs' := rs + [r];
    forall i, j | 0 <= i < |rs'| && 0 <= j < |rs'| && i != j && rs'[i].status == Pending
      ensures !IsPendingFor(rs'[j], rs'[i].mentorId, rs'[i].menteeId)
    {
      if i == |rs| {
        assert rs'[j] == rs[j];
      } else if j == |rs| {
        assert rs'[i] == rs[i];
        assert !IsPendingFor(rs[i], r.mentorId, r.menteeId);
      } else {
        assert rs'[i] == rs[i] && rs'[j] == rs[j];
      }
    }
  }

  /**
   * Once the pending request of a pair is accepted, rejected or cancelled,
   * the pair has no pending request, so the mentee may ask again.
   */
  lemma ResolvedPairMayAskAgain(rs: seq<MatchRequest>, k: nat, st: Status)
    requires k < |rs| && PendingUnique(rs) && rs[k].status == Pending && st != Pending
    ensures !HasPending(WithStatus(rs, k, st), rs[k].mentorId, rs[k].menteeId)
  {
    var rs' := WithStatus(rs, k, st);
    forall i | 0 <= i < |rs'|
      ensures !IsPendingFor(rs'[i], rs[k].mentorId, rs[k].menteeId)
    {
      if i != k {
        assert !IsPendingFor(rs[i], rs[k].mentorId, rs[k].menteeId);
      }
    }
  }

  /** Acceptance of a pending request leaves the pair free for a new request too. */
  lemma AcceptedPairMayAskAgain(rs: seq<MatchRequest>, k: nat, mentorId: int)
    requires k < |rs| && rs[k].mentorId == mentorId
    requires forall i, j :: 0 <= i < j < |rs| ==> rs[i].id < rs[j].id
    ensures !HasPending(AfterAccept(rs, k, mentorId), mentorId, rs[k].menteeId)
  {
    AcceptEffect(rs, k, mentorId);
  }

  /**
   * Acceptance does not bound a mentor's accepted requests: after accepting
   * one request (which rejects the other), accepting the rejected one too
   * leaves two accepted requests for the same mentor.
   */
  lemma TwoAcceptedForOneMentor(m: int, a: int, b: int)
    requires a != b
    ensures var rs := [NewRequest(1, m, a, "hi"), NewRequest(2, m, b, "hello")];
            var once := AfterAccept(rs, 0, m);
            var twice := AfterAccept(once, 1, m);
            && once[1].status == Rejected
            && twice[0].status == Accepted && twice[1].status == Accepted
  {
  }
}
