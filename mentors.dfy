/**
 * `GET /mentors`: mentees list mentors, optionally filtered by a skill
 * substring, sorted stably by name, by first skill or by id.
 */
module Mentors {
  import opened Http
  import opened Seqs
  import opened Skills
  import opened Directory
  import opened Sorting

  /** One entry of the listing (`mentor_profile`): skills always present. */
  function MentorProfile(u: User): (v: UserView)
    ensures v.id == u.id && v.email == u.email && v.role == u.role
    ensures v.profile.name == u.name && v.profile.bio == u.bio
    ensures v.profile.imageUrl == ImageUrl(Mentor, u.id)
    ensures v.profile.skills == Some(Decode(u.skills)) && Join(v.profile.skills.value) == u.skills
  {
    EncodeDecode(u.skills);
    MentorImageUrl(u.id);
    UserView(u.id, u.email, u.role,
      Profile(u.name, u.bio, "/api/images/mentor/" + DecimalString(u.id), Some(Decode(u.skills))))
  }

  /** The listing's literal image path is the one `/me` builds for a mentor. */
  lemma MentorImageUrl(id: int)
    ensures "/api/images/mentor/" + DecimalString(id) == ImageUrl(Mentor, id)
  {
    assert RoleName(Mentor) == "mentor";
    assert "/api/images/" + "mentor" + "/" == "/api/images/mentor/";
  }

  /** For a mentor, the listing entry is exactly what `/me` shows that mentor. */
  lemma MentorProfileIsMeView(u: User)
    requires u.role == Mentor
    ensures MentorProfile(u) == MeView(u)
  {
  }

  /** `t` occurs in `s` as a contiguous substring: it is a prefix of some suffix of `s`. */
  function Contains(s: string, t: string): (b: bool)
    ensures b <==> exists i :: 0 <= i <= |s| && t <= s[i..]
  {
    if t <= s then
      assert t <= s[0..];
      true
    else if s == [] then false
    else
      assert forall j :: 0 <= j <= |s[1..]| ==> s[1..][j..] == s[j + 1..];
      assert forall i :: 1 <= i <= |s| ==> s[i..] == s[1..][i - 1..];
      Contains(s[1..], t)
  }

  /**
   * The query's filter (`role == "mentor"`, then `skills LIKE '%skill%'` for
   * a non-empty `skill`).
   */
  function Matches(u: User, skill: Option<string>): (b: bool)
    ensures b <==> u.role == Mentor &&
                   (skill.None? || skill.value == "" || exists i :: 0 <= i <= |u.skills| && skill.value <= u.skills[i..])
  {
    u.role == Mentor && (skill.None? || skill.value == "" || Contains(u.skills, skill.value))
  }

  /** The stored mentors that match, each as often as it is stored, in storage order. */
  function Query(users: seq<User>, skill: Option<string>): (q: seq<User>)
    ensures forall u {:trigger multiset(q)[u]} :: multiset(q)[u] == if Matches(u, skill) then multiset(users)[u] else 0
    ensures forall u :: u in q ==> u in users && u.role == Mentor
  {
    Filter(users, MatchesFilter(skill))
  }

  function MatchesFilter(skill: Option<string>): User -> bool {
    u => Matches(u, skill)
  }

  /** `[mentor_profile(u) for u in mentors]`. */
  function Profiles(ms: seq<User>): (vs: seq<UserView>)
    ensures |vs| == |ms|
    ensures forall i :: 0 <= i < |ms| ==> vs[i] == MentorProfile(ms[i])
  {
    seq(|ms|, i requires 0 <= i < |ms| => MentorProfile(ms[i]))
  }

  /* ---------------- Sort keys and their order ---------------- */

  datatype Order = ByName | BySkill | ById

  /** `order_by`: "name", "skill", anything else (or nothing) sorts by id. */
  function OrderOf(orderBy: Option<string>): (order: Order)
    ensures order == ByName <==> orderBy == Some("name")
    ensures order == BySkill <==> orderBy == Some("skill")
  {
    if orderBy == Some("name") then ByName
    else if orderBy == Some("skill") then BySkill
    else ById
  }

  /**
   * The `key=` of each branch: the name, the first skill ("" when there is
   * none) or the id.
   */
  function SortKey(order: Order, v: UserView): (k: Key)
    ensures order == ByName ==> k == Text(v.profile.name)
    ensures order == BySkill && v.profile.skills.GetOr([]) == [] ==> k == Text("")
    ensures order == BySkill && v.profile.skills.GetOr([]) != [] ==> k == Text(v.profile.skills.value[0])
    ensures order == ById ==> k == Num(v.id)
  {
    match order
    case ByName => Text(v.profile.name)
    case BySkill =>
      var skills := v.profile.skills.GetOr([]);
      Text(if skills == [] then "" else skills[0])
    case ById => Num(v.id)
  }

  /** The key function the handler passes to `sort` for this order. */
  function KeyOf(order: Order): UserView -> Key {
    v => SortKey(order, v)
  }

  /* ---------------- The handler ---------------- */

  /**
   * `GET /mentors`: 401 without a valid token, 403 for a mentor caller,
   * otherwise the matching mentors' profiles, sorted and stable.
   */
  function GetMentors(users: seq<User>, subject: Option<int>, skill: Option<string>, orderBy: Option<string>)
    : (r: Result<seq<UserView>>)
    ensures Authenticate(users, subject).Err? ==> r == Err(Unauthorized)
    ensures Authenticate(users, subject).Ok? ==>
              (r.Err? <==> users[Authenticate(users, subject).value].role != Mentee)
    ensures Authenticate(users, subject).Ok? && users[Authenticate(users, subject).value].role != Mentee ==>
              r == Err(Forbidden)
    ensures r.Err? ==> r.error in {Unauthorized, Forbidden}
    ensures r.Ok? ==> multiset(r.value) == multiset(Profiles(Query(users, skill)))
    ensures r.Ok? ==> Sorted(r.value, KeyOf(OrderOf(orderBy)))
    ensures r.Ok? ==> forall k :: WithKey(r.value, KeyOf(OrderOf(orderBy)), k)
                               == WithKey(Profiles(Query(users, skill)), KeyOf(OrderOf(orderBy)), k)
  {
    match Authenticate(users, subject)
    case Err(e) => Err(e)
    case Ok(i) =>
      if users[i].role != Mentee then Err(Forbidden)
      else
        var key := KeyOf(OrderOf(orderBy));
        var listed := Profiles(Query(users, skill));
        SortSorted(listed, key);
        assert forall k :: WithKey(Sort(listed, key), key, k) == WithKey(listed, key, k) by {
          forall k ensures WithKey(Sort(listed, key), key, k) == WithKey(listed, key, k) {
            SortStable(listed, key, k);
          }
        }
        Ok(Sort(listed, key))
  }

  /** A profile is listed exactly when it is that of a stored mentor matching the filter. */
  lemma ListedExactly(users: seq<User>, skill: Option<string>, v: UserView)
    ensures v in Profiles(Query(users, skill)) <==> exists u :: u in users && Matches(u, skill) && v == MentorProfile(u)
  {
    var q := Query(users, skill);
    if v in Profiles(q) {
      var i :| 0 <= i < |q| && Profiles(q)[i] == v;
      var u := q[i];
      assert multiset(q)[u] > 0;
      assert u in users && Matches(u, skill) && v == MentorProfile(u);
    }
    if exists u :: u in users && Matches(u, skill) && v == MentorProfile(u) {
      var u :| u in users && Matches(u, skill) && v == MentorProfile(u);
      assert multiset(q)[u] == multiset(users)[u] > 0;
      var i :| 0 <= i < |q| && q[i] == u;
      assert Profiles(q)[i] == v;
    }
  }

  /** The sort key for `order_by=skill` is the stored text before the first comma. */
  lemma SkillKeyIsFirstSkill(u: User)
    ensures SortKey(BySkill, MentorProfile(u)) == Text(FirstSkill(u.skills))
  {
    FirstOfDecode(u.skills);
  }

  /** Ids increase in storage order, so the default order is the query order. */
  lemma SortByIdKeepsQueryOrder(users: seq<User>, skill: Option<string>)
    requires forall i, j :: 0 <= i < j < |users| ==> users[i].id < users[j].id
    ensures Sort(Profiles(Query(users, skill)), KeyOf(ById)) == Profiles(Query(users, skill))
  {
    var q := Query(users, skill);
    FilterKeepsIncreasingIds(users, skill);
    SortKeepsIncreasing(Profiles(q), KeyOf(ById));
  }

  lemma FilterKeepsIncreasingIds(users: seq<User>, skill: Option<string>)
    requires forall i, j :: 0 <= i < j < |users| ==> users[i].id < users[j].id
    ensures var q := Query(users, skill); forall i, j :: 0 <= i < j < |q| ==> q[i].id < q[j].id
  {
    FilterKeepsOrder(users, MatchesFilter(skill), (a: User, b: User) => a.id < b.id);
  }
}
