/** The path the robot follows: a table of normalized way points mapped onto
    the floor, offset by the formation spacing and, for the second robot of
    the pair, traversed in reverse order. */
module Paths {
  import opened Geometry

  /** Number of way points in the firmware's figure-8 table. */
  const PathPointCount: nat := 37
  const XScale: real := 1100.0
  const YScale: real := 900.0
  const YShift: real := 2750.0
  /** Distance kept between the two robots, in millimetres, on each axis. */
  const Spacing: real := 60.0

  /** The formation role chosen when the firmware is built: the Leader keeps
      the default (the flip flag is not defined); the Follower is built with
      the flip-and-reverse flag. */
  datatype Role = Leader | Follower

  /** Offset added to both axes after scaling: minus the spacing for the
      Leader, plus the spacing for the Follower. */
  function SpacingOffset(role: Role): (offset: real) {
    if role == Follower then Spacing else -Spacing
  }

  /** The affine map from the normalized table onto the floor. */
  function ScaleToField(p: Point): (q: Point) {
    Point(p.x * XScale, p.y * YScale - YShift)
  }

  /** Where a table point ends up for the given role. */
  function Place(p: Point, role: Role): (q: Point) {
    var q := ScaleToField(p);
    Point(q.x + SpacingOffset(role), q.y + SpacingOffset(role))
  }

  /** Every point of the table, placed, in table order. */
  function PlacePath(table: seq<Point>, role: Role): (r: seq<Point>) {
    seq(|table|, i requires 0 <= i < |table| => Place(table[i], role))
  }

  /** Both axes shifted by `d`. */
  function Shift(s: seq<Point>, d: real): (r: seq<Point>) {
    seq(|s|, i requires 0 <= i < |s| => Point(s[i].x + d, s[i].y + d))
  }

  /** The sequence in the opposite order, defined by peeling off the last element. */
  function Reversed(s: seq<Point>): (r: seq<Point>)
    ensures |r| == |s|
  {
    if |s| == 0 then [] else [s[|s| - 1]] + Reversed(s[..|s| - 1])
  }

  /** The path as the firmware builds it for a role. */
  function BuildPath(table: seq<Point>, role: Role): (path: seq<Point>) {
    if role == Follower then Reversed(PlacePath(table, role)) else PlacePath(table, role)
  }

  /** The two-step placement: scale and translate, then the spacing offset,
      rewriting each entry of the array in place. */
  method PlaceInPlace(a: array<Point>, role: Role)
    modifies a
    ensures a[..] == PlacePath(old(a[..]), role)
  {
    for i := 0 to a.Length
      invariant forall k :: 0 <= k < i ==> a[k] == Place(old(a[k]), role)
      invariant forall k :: i <= k < a.Length ==> a[k] == old(a[k])
    {
      a[i] := ScaleToField(a[i]);
      a[i] := Point(a[i].x + SpacingOffset(role), a[i].y + SpacingOffset(role));
    }
  }

  /** Reverses the array by swapping entry i with entry N-1-i for i < N/2. */
  method ReverseInPlace(a: array<Point>)
    modifies a
    ensures a[..] == Reversed(old(a[..]))
  {
    var n := a.Length;
    ghost var before := a[..];
    var i := 0;
    while i < n / 2
      invariant 0 <= i <= n / 2
      invariant forall k :: 0 <= k < i ==> a[k] == before[n - 1 - k]
      invariant forall k :: n - i <= k < n ==> a[k] == before[n - 1 - k]
      invariant forall k :: i <= k < n - i ==> a[k] == before[k]
    {
      var tmp := a[i];
      a[i] := a[n - i - 1];
      a[n - i - 1] := tmp;
      i := i + 1;
    }
    forall k | 0 <= k < n
      ensures a[k] == Reversed(before)[k]
    {
      ReversedAt(before, k);
    }
  }

  /** Entry k of the reversed sequence is entry N-1-k of the original. */
  lemma {:induction false} ReversedAt(s: seq<Point>, k: nat)
    requires k < |s|
    ensures Reversed(s)[k] == s[|s| - 1 - k]
  {
    if k > 0 {
      ReversedAt(s[..|s| - 1], k - 1);
    }
  }

  /** Reversing twice gives back the original order. */
  lemma ReversedTwice(s: seq<Point>)
    ensures Reversed(Reversed(s)) == s
  {
    forall k | 0 <= k < |s|
      ensures Reversed(Reversed(s))[k] == s[k]
    {
      ReversedAt(Reversed(s), k);
      ReversedAt(s, |s| - 1 - k);
    }
  }

  /** With an odd number of entries the middle one is never swapped. */
  lemma MiddleStaysPut(s: seq<Point>)
    requires |s| % 2 == 1
    ensures Reversed(s)[|s| / 2] == s[|s| / 2]
  {
    ReversedAt(s, |s| / 2);
  }

  /** In the firmware's 37-point table the middle point, index 18, is the
      one the Follower's reversal leaves in place. */
  lemma FigureEightMiddleStaysPut(s: seq<Point>)
    requires |s| == PathPointCount
    ensures Reversed(s)[18] == s[18]
  {
    MiddleStaysPut(s);
  }

  /** Placement is injective: two different table points never land on the
      same path point, for either role. */
  lemma PlaceInjective(p: Point, q: Point, role: Role)
    ensures Place(p, role) == Place(q, role) ==> p == q
  {
  }

  /** The Leader's placement is (x * 1100 - 60, y * 900 - 2750 - 60); the
      Follower's uses +60 on both axes. */
  lemma PlacementByRole(p: Point)
    ensures Place(p, Leader) == Point(p.x * 1100.0 - 60.0, p.y * 900.0 - 2750.0 - 60.0)
    ensures Place(p, Follower) == Point(p.x * 1100.0 + 60.0, p.y * 900.0 - 2750.0 + 60.0)
  {
  }

  /** Entry by entry: the Leader visits the placed table in order; the
      Follower visits it from the last point to the first. Both have one
      entry per table point. */
  lemma BuildPathAt(table: seq<Point>, role: Role, k: nat)
    requires k < |table|
    ensures |BuildPath(table, role)| == |table|
    ensures role == Leader ==> BuildPath(table, role)[k] == Place(table[k], Leader)
    ensures role == Follower ==> BuildPath(table, role)[k] == Place(table[|table| - 1 - k], Follower)
  {
    if role == Follower {
      ReversedAt(PlacePath(table, role), k);
    }
  }

  /** The Follower's path is the Leader's path moved by twice the spacing on
      both axes and traversed in reverse. */
  lemma FollowerMirrorsLeader(table: seq<Point>)
    ensures BuildPath(table, Follower) == Reversed(Shift(BuildPath(table, Leader), 2.0 * Spacing))
  {
    var leader := BuildPath(table, Leader);
    var n := |table|;
    forall k | 0 <= k < n
      ensures BuildPath(table, Follower)[k] == Reversed(Shift(leader, 2.0 * Spacing))[k]
    {
      BuildPathAt(table, Follower, k);
      ReversedAt(Shift(leader, 2.0 * Spacing), k);
    }
  }
}
