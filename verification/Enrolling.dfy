/** Course and program enrollment with the stored per-course counter. */
module Enrolling {
  import opened Prelude

  type UserId = nat
  type CourseId = nat
  type ProgramId = nat

  /** A program lists each course once (the primary key of program_courses). */
  type CourseList = cs: seq<CourseId> | forall i, j :: 0 <= i < j < |cs| ==> cs[i] != cs[j]

  datatype Course = Course(published: bool, price: nat)

  datatype Program = Program(published: bool, price: nat, required: CourseList)

  /** What instructors and admins publish; it may differ from step to step. */
  datatype Catalog = Catalog(courses: map<CourseId, Course>, programs: map<ProgramId, Program>)
  {
    predicate OpenCourse(c: CourseId) { c in courses && courses[c].published }

    predicate OpenProgram(p: ProgramId) { p in programs && programs[p].published }
  }

  /** Enrollment rows, program enrollment rows, and enrollments_count per course
      (the multiplicity of the course in `counts`). A program row remembers which
      courses were required when it was created. */
  datatype Roster = Roster(courses: set<(UserId, CourseId)>,
                           programs: map<(UserId, ProgramId), set<CourseId>>,
                           counts: multiset<CourseId>)

  const NOBODY := Roster({}, map[], multiset{})

  function Learners(r: Roster, c: CourseId): set<UserId> {
    set e | e in r.courses && e.1 == c :: e.0
  }

  /** Every stored counter is the number of enrollment rows, and program rows come
      with all the courses they promised. */
  ghost predicate Balanced(r: Roster) {
    && (forall c :: r.counts[c] == |Learners(r, c)|)
    && (forall k :: k in r.programs ==> forall c :: c in r.programs[k] ==> (k.0, c) in r.courses)
  }

  datatype EnrollError = CourseNotFound | ProgramNotFound

  function Enroll(r: Roster, cat: Catalog, u: UserId, c: CourseId): Result<Roster, EnrollError> {
    if !cat.OpenCourse(c) then Err(CourseNotFound)
    else Ok(Joined(r, u, {c}))
  }

  /** u enrolled in all of cs, counting only the rows that are new. */
  function Joined(r: Roster, u: UserId, cs: set<CourseId>): Roster {
    r.(courses := r.courses + Rows(u, cs), counts := r.counts + multiset(Missing(r, u, cs)))
  }

  function Rows(u: UserId, cs: set<CourseId>): set<(UserId, CourseId)> { set c | c in cs :: (u, c) }

  /** The courses of cs u is not enrolled in yet. */
  function Missing(r: Roster, u: UserId, cs: set<CourseId>): set<CourseId> {
    set c | c in cs && (u, c) !in r.courses
  }

  function Elements(cs: seq<CourseId>): set<CourseId> { set c | c in cs }

  function EnrollInProgram(r: Roster, cat: Catalog, u: UserId, p: ProgramId): Result<Roster, EnrollError> {
    if !cat.OpenProgram(p) then Err(ProgramNotFound)
    else if (u, p) in r.programs then Ok(r)
    else
      var cs := Elements(cat.programs[p].required);
      Ok(Joined(r.(programs := r.programs[(u, p) := cs]), u, cs))
  }

  class Enrollments {
    var courses: set<(UserId, CourseId)>
    var programs: map<(UserId, ProgramId), set<CourseId>>
    var counts: multiset<CourseId>

    constructor ()
      ensures State() == NOBODY
    {
      courses, programs, counts := {}, map[], multiset{};
    }

    ghost function State(): Roster
      reads this
    {
      Roster(courses, programs, counts)
    }

    method EnrollUser(cat: Catalog, u: UserId, c: CourseId) returns (r: Result<(), EnrollError>)
      modifies this
      ensures r == match Enroll(old(State()), cat, u, c) case Ok(_) => Ok(()) case Err(e) => Err(e)
      ensures State() == match Enroll(old(State()), cat, u, c) case Ok(s) => s case Err(_) => old(State())
    {
      if !cat.OpenCourse(c) {
        return Err(CourseNotFound);
      }
      ghost var before := State();
      NewCourses(before, u, c);
      if (u, c) in courses {
        return Ok(());
      }
      courses := courses + {(u, c)};
      counts := counts + multiset{c};
      return Ok(());
    }

    method EnrollUserInProgram(cat: Catalog, u: UserId, p: ProgramId) returns (r: Result<(), EnrollError>)
      modifies this
      ensures r == match EnrollInProgram(old(State()), cat, u, p) case Ok(_) => Ok(()) case Err(e) => Err(e)
      ensures State() == match EnrollInProgram(old(State()), cat, u, p) case Ok(s) => s case Err(_) => old(State())
    {
      if !cat.OpenProgram(p) {
        return Err(ProgramNotFound);
      }
      if (u, p) in programs {
        return Ok(());
      }
      var courseIds := cat.programs[p].required;
      programs := programs[(u, p) := Elements(courseIds)];
      ghost var before := State();
      var existing := courses;
      for n := 0 to |courseIds|
        invariant State() == Joined(before, u, Elements(courseIds[..n]))
      {
        var cid := courseIds[n];
        JoinOneMore(before, u, courseIds, n);
        if (u, cid) !in existing {
          courses := courses + {(u, cid)};
          counts := counts + multiset{cid};
        }
      }
      assert courseIds[..|courseIds|] == courseIds;
      return Ok(());
    }
  }

  lemma NewCourses(r: Roster, u: UserId, c: CourseId)
    ensures Joined(r, u, {c}) == if (u, c) in r.courses then r
                                 else r.(courses := r.courses + {(u, c)}, counts := r.counts + multiset{c})
  {
    var added := set d | d in {c} && (u, d) !in r.courses;
    assert (set d | d in {c} :: (u, d)) == {(u, c)};
    assert added == if (u, c) in r.courses then {} else {c};
  }

  lemma JoinOneMore(r: Roster, u: UserId, cs: CourseList, n: nat)
    requires n < |cs|
    ensures var q := Joined(r, u, Elements(cs[..n]));
            Joined(r, u, Elements(cs[..n + 1])) ==
            if (u, cs[n]) in r.courses then q
            else q.(courses := q.courses + {(u, cs[n])}, counts := q.counts + multiset{cs[n]})
  {
    hide Joined;
    assert Elements(cs[..n + 1]) == Elements(cs[..n]) + {cs[n]};
    JoinAnother(r, u, Elements(cs[..n]), cs[n]);
  }

  lemma JoinAnother(r: Roster, u: UserId, a: set<CourseId>, c: CourseId)
    requires c !in a
    ensures var q := Joined(r, u, a);
            Joined(r, u, a + {c}) ==
            if (u, c) in r.courses then q
            else q.(courses := q.courses + {(u, c)}, counts := q.counts + multiset{c})
  {
    hide Rows, Missing;
    RowsOfAnother(u, a, c);
    MissingAnother(r, u, a, c);
    if (u, c) in r.courses {
      assert r.courses + (Rows(u, a) + {(u, c)}) == r.courses + Rows(u, a);
    } else {
      CountAnother(Missing(r, u, a), c);
      assert r.courses + (Rows(u, a) + {(u, c)}) == r.courses + Rows(u, a) + {(u, c)};
    }
  }

  lemma RowsOfAnother(u: UserId, a: set<CourseId>, c: CourseId)
    ensures Rows(u, a + {c}) == Rows(u, a) + {(u, c)}
  {
  }

  lemma MissingAnother(r: Roster, u: UserId, a: set<CourseId>, c: CourseId)
    requires c !in a
    ensures Missing(r, u, a + {c}) == Missing(r, u, a) + if (u, c) in r.courses then {} else {c}
    ensures c !in Missing(r, u, a)
  {
  }

  lemma CountAnother(a: set<CourseId>, c: CourseId)
    requires c !in a
    ensures multiset(a + {c}) == multiset(a) + multiset{c}
  {
  }

  // ---------- Laws ----------

  /** Joining keeps every counter equal to its number of rows. */
  lemma JoinedStaysBalanced(r: Roster, u: UserId, cs: set<CourseId>)
    requires forall c :: r.counts[c] == |Learners(r, c)|
    ensures forall c :: Joined(r, u, cs).counts[c] == |Learners(Joined(r, u, cs), c)|
  {
    var q := Joined(r, u, cs);
    forall c ensures q.counts[c] == |Learners(q, c)| {
      if c in cs && (u, c) !in r.courses {
        assert Learners(q, c) == Learners(r, c) + {u};
      } else {
        assert Learners(q, c) == Learners(r, c);
      }
    }
  }

  lemma EnrollStaysBalanced(r: Roster, cat: Catalog, u: UserId, c: CourseId)
    requires Balanced(r) && Enroll(r, cat, u, c).Ok?
    ensures Balanced(Enroll(r, cat, u, c).value)
    ensures (u, c) in Enroll(r, cat, u, c).value.courses
  {
    JoinedStaysBalanced(r, u, {c});
  }

  /** q is r with u enrolled in each of cs: a row for each and no other, and one more learner
      counted for exactly the rows that are new. */
  ghost predicate Adds(r: Roster, q: Roster, u: UserId, cs: set<CourseId>) {
    && (forall v, c :: (v, c) in q.courses <==> (v, c) in r.courses || (v == u && c in cs))
    && (forall c :: q.counts[c] == r.counts[c] + if c in cs && (u, c) !in r.courses then 1 else 0)
  }

  /** The courses the catalog requires of a program. */
  function RequiredOf(cat: Catalog, p: ProgramId): set<CourseId>
    requires p in cat.programs
  {
    set c | c in cat.programs[p].required
  }

  lemma JoinedAdds(r: Roster, u: UserId, cs: set<CourseId>)
    ensures Adds(r, Joined(r, u, cs), u, cs)
  {
    var q := Joined(r, u, cs);
    forall v, c ensures (v, c) in q.courses <==> (v, c) in r.courses || (v == u && c in cs) {
      assert (v, c) in Rows(u, cs) <==> v == u && c in cs;
    }
  }

  /** Enrolling succeeds exactly for a published course, and then adds that one row. */
  lemma EnrollIff(r: Roster, cat: Catalog, u: UserId, c: CourseId)
    ensures var open := c in cat.courses && cat.courses[c].published;
            match Enroll(r, cat, u, c)
            case Ok(q) => open && Adds(r, q, u, {c}) && q.programs == r.programs
            case Err(e) => !open && e == CourseNotFound
  {
    JoinedAdds(r, u, {c});
  }

  /** Program enrollment succeeds exactly for a published program. A new program row stores
      exactly the courses the catalog requires now and enrolls the user in each of them; an
      existing one is left as it is. */
  lemma EnrollInProgramIff(r: Roster, cat: Catalog, u: UserId, p: ProgramId)
    ensures var open := p in cat.programs && cat.programs[p].published;
            match EnrollInProgram(r, cat, u, p)
            case Err(e) => !open && e == ProgramNotFound
            case Ok(q) =>
              && open
              && (if (u, p) in r.programs then q == r
                  else q.programs == r.programs[(u, p) := RequiredOf(cat, p)] && Adds(r, q, u, RequiredOf(cat, p)))
  {
    if cat.OpenProgram(p) && (u, p) !in r.programs {
      var cs := RequiredOf(cat, p);
      assert Elements(cat.programs[p].required) == cs;
      JoinedAdds(r.(programs := r.programs[(u, p) := cs]), u, cs);
    }
  }

  lemma EnrollInProgramStaysBalanced(r: Roster, cat: Catalog, u: UserId, p: ProgramId)
    requires Balanced(r) && EnrollInProgram(r, cat, u, p).Ok?
    ensures Balanced(EnrollInProgram(r, cat, u, p).value)
    ensures (u, p) in EnrollInProgram(r, cat, u, p).value.programs
    ensures (u, p) !in r.programs ==>
              p in cat.programs && EnrollInProgram(r, cat, u, p).value.programs[(u, p)] == RequiredOf(cat, p)
  {
    EnrollInProgramIff(r, cat, u, p);
    if (u, p) !in r.programs {
      var q := r.(programs := r.programs[(u, p) := Elements(cat.programs[p].required)]);
      assert forall c :: Learners(q, c) == Learners(r, c);
      JoinedStaysBalanced(q, u, Elements(cat.programs[p].required));
    }
  }

  /** Rows are only ever added, and a program row keeps the list it was created with. */
  ghost predicate Extends(r: Roster, q: Roster) {
    && r.courses <= q.courses
    && forall k :: k in r.programs ==> k in q.programs && q.programs[k] == r.programs[k]
  }

  /** Repeating either call, even under another catalog, changes nothing. */
  lemma EnrollIdempotent(r: Roster, cat: Catalog, cat': Catalog, u: UserId, c: CourseId)
    requires Enroll(r, cat, u, c).Ok?
    ensures Extends(r, Enroll(r, cat, u, c).value)
    ensures cat'.OpenCourse(c) ==>
              Enroll(Enroll(r, cat, u, c).value, cat', u, c) == Ok(Enroll(r, cat, u, c).value)
  {
    var q := Enroll(r, cat, u, c).value;
    NewCourses(r, u, c);
    NewCourses(q, u, c);
  }

  lemma EnrollInProgramIdempotent(r: Roster, cat: Catalog, cat': Catalog, u: UserId, p: ProgramId)
    requires EnrollInProgram(r, cat, u, p).Ok?
    ensures Extends(r, EnrollInProgram(r, cat, u, p).value)
    ensures cat'.OpenProgram(p) ==>
              EnrollInProgram(EnrollInProgram(r, cat, u, p).value, cat', u, p) ==
                  Ok(EnrollInProgram(r, cat, u, p).value)
  {
  }
}
