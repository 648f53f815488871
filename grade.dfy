/** The grade schema and its pre-save hook (backend/models/Grade.js).
    Component scores are integers; the weighted sum is kept exactly, in tenths
    of a point, so the weights 0.3, 0.4, 0.2, 0.1 become 3, 4, 2, 1. The source
    adds IEEE doubles, whose sum can differ from the exact one at a .5 tie. */
module GradeModel {
  import opened Common

  /** One student's record in one subject. A `None` component is a stored `null`. */
  datatype Grade = Grade(
    student: Id,
    subject: Id,
    midterm: Option<int>,
    finals: Option<int>,
    projects: Option<int>,
    participation: Option<int>,
    finalGrade: Option<int>,
    remarks: string,
    encodedBy: Option<Id>,
    encodedAt: Time)

  /** `new Grade({ student, subject, encodedBy })`: every other path takes its schema default. */
  function NewGrade(student: Id, subject: Id, encodedBy: Id, now: Time): (g: Grade)
    ensures AllAbsent(g) && g.finalGrade.None? && g.remarks == ""
    ensures g.student == student && g.subject == subject && g.encodedBy == Some(encodedBy)
  {
    Grade(student, subject, None, None, None, None, None, "", Some(encodedBy), now)
  }

  predicate AllAbsent(g: Grade)
  {
    g.midterm.None? && g.finals.None? && g.projects.None? && g.participation.None?
  }

  /** The `min: 0, max: 100` validator of one score path; `null` passes it. */
  predicate ScoreInRange(o: Option<int>)
  {
    o.Some? ==> 0 <= o.value <= 100
  }

  /** What schema validation demands of the four components before a save. */
  predicate ComponentsInRange(g: Grade)
  {
    ScoreInRange(g.midterm) && ScoreInRange(g.finals) && ScoreInRange(g.projects) && ScoreInRange(g.participation)
  }

  /** A present score, or 0 for an absent one. */
  function ScoreOr0(o: Option<int>): int
  {
    if o.Some? then o.value else 0
  }

  /** The weighted sum in tenths: `30% midterm + 40% finals + 20% projects + 10% participation`,
      absent components adding nothing and the weights never renormalised. */
  function WeightedTenths(g: Grade): int
  {
    3 * ScoreOr0(g.midterm) + 4 * ScoreOr0(g.finals) + 2 * ScoreOr0(g.projects) + ScoreOr0(g.participation)
  }

  /** `Math.round(t / 10)`: the nearest integer, halves rounded up. */
  function RoundTenths(t: int): (r: int)
    ensures 10 * r <= t + 5 < 10 * r + 10
  {
    (t + 5) / 10
  }

  /** The final grade the hook computes whenever some component is present. */
  function FinalGrade(g: Grade): (r: int)
    ensures 10 * r <= WeightedTenths(g) + 5 < 10 * r + 10
  {
    RoundTenths(WeightedTenths(g))
  }

  /** The document after the pre-save hook: a final grade when some component is
      present; an untouched `finalGrade` otherwise. */
  function WithFinalGrade(g: Grade): (r: Grade)
    ensures AllAbsent(g) ==> r == g
    ensures !AllAbsent(g) ==> r == g.(finalGrade := Some(FinalGrade(g)))
  {
    if AllAbsent(g) then g else g.(finalGrade := Some(FinalGrade(g)))
  }

  /** `reduce((a, b) => a + b, 0)`: a left fold of the pushed terms. */
  function Sum(xs: seq<int>): int
  {
    if xs == [] then 0 else Sum(xs[..|xs| - 1]) + xs[|xs| - 1]
  }

  lemma SumPush(xs: seq<int>, x: int)
    ensures Sum(xs + [x]) == Sum(xs) + x
  {
    assert (xs + [x])[..|xs|] == xs;
  }

  /** The pre-save hook: pushes the weighted term of each present component onto a local
      list, then assigns the rounded sum of that list to `finalGrade`. */
  method PreSave(g: Grade) returns (saved: Grade)
    ensures saved == WithFinalGrade(g)
  {
    saved := g;
    if g.midterm.Some? || g.finals.Some? || g.projects.Some? || g.participation.Some? {
      var grades: seq<int> := [];
      if g.midterm.Some? {
        SumPush(grades, 3 * g.midterm.value);
        grades := grades + [3 * g.midterm.value];
      }
      assert Sum(grades) == 3 * ScoreOr0(g.midterm);
      if g.finals.Some? {
        SumPush(grades, 4 * g.finals.value);
        grades := grades + [4 * g.finals.value];
      }
      assert Sum(grades) == 3 * ScoreOr0(g.midterm) + 4 * ScoreOr0(g.finals);
      if g.projects.Some? {
        SumPush(grades, 2 * g.projects.value);
        grades := grades + [2 * g.projects.value];
      }
      assert Sum(grades) == 3 * ScoreOr0(g.midterm) + 4 * ScoreOr0(g.finals) + 2 * ScoreOr0(g.projects);
      if g.participation.Some? {
        SumPush(grades, g.participation.value);
        grades := grades + [g.participation.value];
      }
      assert Sum(grades) == WeightedTenths(g);
      saved := saved.(finalGrade := Some(RoundTenths(Sum(grades))));
    }
  }

  /** With every component in 0..100 the final grade is in 0..100 too. */
  lemma FinalGradeInRange(g: Grade)
    requires ComponentsInRange(g)
    ensures 0 <= WeightedTenths(g) <= 1000
    ensures 0 <= FinalGrade(g) <= 100
  {
  }

  /** Componentwise order on the scores (absent counting as 0): `b` is `a` with some
      scores raised or added. */
  predicate NoLowerScores(a: Grade, b: Grade)
  {
    && ScoreOr0(a.midterm) <= ScoreOr0(b.midterm)
    && ScoreOr0(a.finals) <= ScoreOr0(b.finals)
    && ScoreOr0(a.projects) <= ScoreOr0(b.projects)
    && ScoreOr0(a.participation) <= ScoreOr0(b.participation)
  }

  /** Raising a component never lowers the final grade. */
  lemma FinalGradeMonotone(a: Grade, b: Grade)
    requires NoLowerScores(a, b)
    ensures FinalGrade(a) <= FinalGrade(b)
  {
    var ta, tb := WeightedTenths(a), WeightedTenths(b);
    assert ta <= tb;
    var ra, rb := RoundTenths(ta), RoundTenths(tb);
    assert 10 * ra <= ta + 5 && tb + 5 < 10 * rb + 10;
  }

  /** The hook is deterministic and reruns on every save: saving again with no component
      changed leaves the final grade where it was. */
  lemma WithFinalGradeIdempotent(g: Grade)
    ensures WithFinalGrade(WithFinalGrade(g)) == WithFinalGrade(g)
  {
  }

  /** Only finals = 100: the weights are not renormalised, so the final grade is 40. */
  lemma FinalsOnlyExample(g: Grade)
    requires g.midterm.None? && g.finals == Some(100) && g.projects.None? && g.participation.None?
    ensures WithFinalGrade(g).finalGrade == Some(40)
  {
  }

  /** midterm 80 and finals 90 only: round(24 + 36) = 60. */
  lemma MidtermFinalsExample(g: Grade)
    requires g.midterm == Some(80) && g.finals == Some(90) && g.projects.None? && g.participation.None?
    ensures WithFinalGrade(g).finalGrade == Some(60)
  {
  }

  /** The stored-record invariant: scores and final grade within 0..100, and the final grade
      the hook's value whenever some component is present. */
  predicate WellFormed(g: Grade)
  {
    && ComponentsInRange(g)
    && ScoreInRange(g.finalGrade)
    && (!AllAbsent(g) ==> g.finalGrade == Some(FinalGrade(g)))
  }

  lemma WithFinalGradeWellFormed(g: Grade)
    requires ComponentsInRange(g) && ScoreInRange(g.finalGrade)
    ensures WellFormed(WithFinalGrade(g))
  {
    FinalGradeInRange(g);
  }
}
