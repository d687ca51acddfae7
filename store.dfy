/**
 * The backend's database as one object: the `users` and `match_requests`
 * tables with their next ids, and the handlers that change them. Each
 * method is one handler committed as a unit; a handler that raises changes
 * nothing.
 */
module Store {
  import opened Http
  import opened Directory
  import opened Requests

  /** The sign-up response: `{id, email, role, name}`. */
  datatype SignupResponse = SignupResponse(id: int, email: string, role: Role, name: string)

  class Database {
    var users: seq<User>
    var requests: seq<MatchRequest>
    var nextUserId: int
    var nextRequestId: int

    ghost predicate Valid()
      reads this
    {
      && UsersWellFormed(users, nextUserId)
      && RequestsWellFormed(requests, nextRequestId)
      && ReferencesResolve(users, requests)
    }

    /** A fresh database: both tables empty, ids handed out from 1. */
    constructor ()
      ensures Valid()
      ensures users == [] && requests == []
      ensures nextUserId == 1 && nextRequestId == 1
    {
      users := [];
      requests := [];
      nextUserId := 1;
      nextRequestId := 1;
    }

    /**
     * `POST /signup`: 400 if the e-mail is taken, otherwise one new user with
     * a fresh id, empty bio and skills. `passwordHash` is the hash of the
     * submitted password.
     */
    method Signup(email: string, passwordHash: string, name: string, role: Role) returns (res: Result<SignupResponse>)
      requires Valid()
      modifies this
      ensures Valid()
      ensures requests == old(requests) && nextRequestId == old(nextRequestId)
      ensures EmailTaken(old(users), email) ==>
                res == Err(BadRequest) && users == old(users) && nextUserId == old(nextUserId)
      ensures !EmailTaken(old(users), email) ==>
                && res == Ok(SignupResponse(old(nextUserId), email, role, name))
                && users == old(users) + [NewUser(old(nextUserId), email, passwordHash, name, role)]
                && nextUserId == old(nextUserId) + 1
      ensures res.Ok? ==> forall u :: u in old(users) ==> u.id != res.value.id && u.email != email
    {
      if EmailTaken(users, email) {
        return Err(BadRequest);
      }
      var id := nextUserId;
      SignupKeepsWellFormed(users, id, email, passwordHash, name, role);
      var u := NewUser(id, email, passwordHash, name, role);
      NewUserKeepsReferences(users, requests, u);
      users := users + [u];
      nextUserId := nextUserId + 1;
      res := Ok(SignupResponse(id, email, role, name));
    }

    /**
     * `PUT /profile`: 401 without a valid token, then the checks of
     * `ApplyProfileUpdate`; on success the caller's row is replaced and the
     * new `/me` view returned.
     */
    method UpdateProfile(subject: Option<int>, req: ProfileUpdate) returns (res: Result<UserView>)
      requires Valid()
      modifies this
      ensures Valid()
      ensures requests == old(requests)
      ensures nextUserId == old(nextUserId) && nextRequestId == old(nextRequestId)
      ensures match Authenticate(old(users), subject)
        case Err(e) => res == Err(e) && users == old(users)
        case Ok(i) =>
          match ApplyProfileUpdate(old(users)[i], req)
          case Err(e) => res == Err(e) && users == old(users)
          case Ok(u) => res == Ok(MeView(u)) && users == old(users)[i := u]
    {
      var auth := Authenticate(users, subject);
      if auth.Err? {
        return Err(auth.error);
      }
      var i := auth.value;
      var updated := ApplyProfileUpdate(users[i], req);
      if updated.Err? {
        return Err(updated.error);
      }
      var u := updated.value;
      UpdateKeepsWellFormed(users, nextUserId, i, u);
      forall id, role
        ensures IsUserWithRole(users[i := u], id, role) <==> IsUserWithRole(users, id, role)
      {
        UpdateKeepsRoles(users, i, u, id, role);
      }
      users := users[i := u];
      res := Ok(MeView(u));
    }

    /**
     * `POST /match-requests`: 401 without a valid token; 403 unless the
     * caller is the mentee named in the request; 400 if `mentorId` is not a
     * mentor; 400 if the pair already has a pending request. Otherwise one
     * pending request with a fresh id is appended.
     */
    method CreateMatchRequest(subject: Option<int>, mentorId: int, menteeId: int, message: string)
      returns (res: Result<RequestView>)
      requires Valid()
      modifies this
      ensures Valid()
      ensures users == old(users) && nextUserId == old(nextUserId)
      ensures match Authenticate(old(users), subject)
        case Err(e) => res == Err(e) && requests == old(requests) && nextRequestId == old(nextRequestId)
        case Ok(c) =>
          if old(users)[c].role != Mentee || old(users)[c].id != menteeId then
            res == Err(Forbidden) && requests == old(requests) && nextRequestId == old(nextRequestId)
          else if !IsUserWithRole(old(users), mentorId, Mentor) then
            res == Err(BadRequest) && requests == old(requests) && nextRequestId == old(nextRequestId)
          else if HasPending(old(requests), mentorId, menteeId) then
            res == Err(BadRequest) && requests == old(requests) && nextRequestId == old(nextRequestId)
          else
            var r := NewRequest(old(nextRequestId), mentorId, menteeId, message);
            && res == Ok(FullView(r))
            && requests == old(requests) + [r]
            && nextRequestId == old(nextRequestId) + 1
      ensures res.Ok? ==> forall q :: q in old(requests) ==> q.id < res.value.id
    {
      var auth := Authenticate(users, subject);
      if auth.Err? {
        return Err(auth.error);
      }
      var caller := users[auth.value];
      if caller.role != Mentee || caller.id != menteeId {
        return Err(Forbidden);
      }
      if !IsUserWithRole(users, mentorId, Mentor) {
        return Err(BadRequest);
      }
      if HasPending(requests, mentorId, menteeId) {
        return Err(BadRequest);
      }
      var r := NewRequest(nextRequestId, mentorId, menteeId, message);
      CreateKeepsPendingUnique(requests, r);
      assert IsUserWithRole(users, menteeId, Mentee) by {
        assert users[auth.value].id == menteeId && users[auth.value].role == Mentee;
      }
      requests := requests + [r];
      nextRequestId := nextRequestId + 1;
      res := Ok(FullView(r));
    }

    /**
     * `PUT /match-requests/{id}/accept`: 401 without a valid token; 403
     * unless a mentor; 404 unless the request is addressed to the caller.
     * Otherwise every other pending request to the caller is rejected and
     * this one is accepted, whatever its status was.
     */
    method Accept(subject: Option<int>, reqId: int) returns (res: Result<RequestView>)
      requires Valid()
      modifies this
      ensures Valid()
      ensures users == old(users)
      ensures nextUserId == old(nextUserId) && nextRequestId == old(nextRequestId)
      ensures match Authenticate(old(users), subject)
        case Err(e) => res == Err(e) && requests == old(requests)
        case Ok(c) =>
          if old(users)[c].role != Mentor then res == Err(Forbidden) && requests == old(requests)
          else
            match Find(old(requests), reqId, AsMentor, old(users)[c].id)
            case None => res == Err(NotFound) && requests == old(requests)
            case Some(k) =>
              && requests == AfterAccept(old(requests), k, old(users)[c].id)
              && res == Ok(FullView(requests[k]))
    {
      var auth := Authenticate(users, subject);
      if auth.Err? {
        return Err(auth.error);
      }
      var caller := users[auth.value];
      if caller.role != Mentor {
        return Err(Forbidden);
      }
      var found := Find(requests, reqId, AsMentor, caller.id);
      if found.None? {
        return Err(NotFound);
      }
      var k := found.value;
      AcceptKeepsWellFormed(users, requests, k, caller.id, nextRequestId);
      RejectOtherPending(caller.id, reqId);
      requests := requests[k := requests[k].(status := Accepted)];
      res := Ok(FullView(requests[k]));
    }

    /** The cascade of acceptance: the mentor's other pending requests become rejected, row by row. */
    method RejectOtherPending(mentorId: int, acceptedId: int)
      modifies this`requests
      ensures requests == Cascade(old(requests), mentorId, acceptedId)
    {
      var i := 0;
      while i < |requests|
        invariant 0 <= i <= |requests| == |old(requests)|
        invariant forall j :: 0 <= j < i ==> requests[j] == Demote(old(requests)[j], mentorId, acceptedId)
        invariant forall j :: i <= j < |requests| ==> requests[j] == old(requests)[j]
      {
        var o := requests[i];
        if o.mentorId == mentorId && o.status == Pending && o.id != acceptedId {
          requests := requests[i := o.(status := Rejected)];
        }
        i := i + 1;
      }
    }

    /**
     * `PUT /match-requests/{id}/reject`: 401 without a valid token; 403
     * unless a mentor; 404 unless the request is addressed to the caller.
     * Otherwise that request becomes rejected, whatever its status was.
     */
    method Reject(subject: Option<int>, reqId: int) returns (res: Result<RequestView>)
      requires Valid()
      modifies this
      ensures Valid()
      ensures users == old(users)
      ensures nextUserId == old(nextUserId) && nextRequestId == old(nextRequestId)
      ensures match Authenticate(old(users), subject)
        case Err(e) => res == Err(e) && requests == old(requests)
        case Ok(c) =>
          if old(users)[c].role != Mentor then res == Err(Forbidden) && requests == old(requests)
          else
            match Find(old(requests), reqId, AsMentor, old(users)[c].id)
            case None => res == Err(NotFound) && requests == old(requests)
            case Some(k) =>
              && requests == WithStatus(old(requests), k, Rejected)
              && res == Ok(FullView(requests[k]))
    {
      var auth := Authenticate(users, subject);
      if auth.Err? {
        return Err(auth.error);
      }
      var caller := users[auth.value];
      if caller.role != Mentor {
        return Err(Forbidden);
      }
      var found := Find(requests, reqId, AsMentor, caller.id);
      if found.None? {
        return Err(NotFound);
      }
      var k := found.value;
      ResolveKeepsWellFormed(users, requests, k, Rejected, nextRequestId);
      requests := requests[k := requests[k].(status := Rejected)];
      res := Ok(FullView(requests[k]));
    }

    /**
     * `DELETE /match-requests/{id}`: 401 without a valid token; 403 unless a
     * mentee; 404 unless the caller sent the request. Otherwise that request
     * becomes cancelled (it stays in the table), whatever its status was.
     */
    method Cancel(subject: Option<int>, reqId: int) returns (res: Result<RequestView>)
      requires Valid()
      modifies this
      ensures Valid()
      ensures users == old(users)
      ensures nextUserId == old(nextUserId) && nextRequestId == old(nextRequestId)
      ensures match Authenticate(old(users), subject)
        case Err(e) => res == Err(e) && requests == old(requests)
        case Ok(c) =>
          if old(users)[c].role != Mentee then res == Err(Forbidden) && requests == old(requests)
          else
            match Find(old(requests), reqId, AsMentee, old(users)[c].id)
            case None => res == Err(NotFound) && requests == old(requests)
            case Some(k) =>
              && requests == WithStatus(old(requests), k, Cancelled)
              && res == Ok(FullView(requests[k]))
    {
      var auth := Authenticate(users, subject);
      if auth.Err? {
        return Err(auth.error);
      }
      var caller := users[auth.value];
      if caller.role != Mentee {
        return Err(Forbidden);
      }
      var found := Find(requests, reqId, AsMentee, caller.id);
      if found.None? {
        return Err(NotFound);
      }
      var k := found.value;
      ResolveKeepsWellFormed(users, requests, k, Cancelled, nextRequestId);
      requests := requests[k := requests[k].(status := Cancelled)];
      res := Ok(FullView(requests[k]));
    }
  }
}

