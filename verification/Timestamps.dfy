/** When the text order of creation times, by which the retention planner sorts, is their order in time. */
module Timestamps {
  import opened Common
  import opened Retention

  /** A fixed format: numbers of fixed widths, each followed by a separator, as in
      year-month-dayThour:minute:secondZ. */
  datatype Field = Field(width: nat, separator: char)

  type Format = seq<Field>

  function Power10(n: nat): nat {
    if n == 0 then 1 else 10 * Power10(n - 1)
  }

  /** A number in `width` digits, with leading zeros. */
  function Padded(v: nat, width: nat): (s: string)
    ensures |s| == width
  {
    if width == 0 then "" else Padded(v / 10, width - 1) + [('0' as int + v % 10) as char]
  }

  /** Values for the fields of a format, each within its width. */
  predicate Fills(f: Format, t: seq<nat>) {
    |t| == |f| && forall i :: 0 <= i < |f| ==> t[i] < Power10(f[i].width)
  }

  function Written(f: Format, t: seq<nat>): string
    requires |t| == |f|
  {
    if f == [] then "" else Padded(t[0], f[0].width) + [f[0].separator] + Written(f[1..], t[1..])
  }

  /** Earlier in time: the first field that differs decides. */
  predicate Earlier(t: seq<nat>, u: seq<nat>)
    requires |t| == |u|
  {
    t != [] && (t[0] < u[0] || (t[0] == u[0] && Earlier(t[1..], u[1..])))
  }

  /** Texts with parts of equal length compare part by part. */
  lemma {:induction false} LessByParts(a: string, b: string, x: string, y: string)
    requires |a| == |b|
    ensures StringLess(a + x, b + y) <==> StringLess(a, b) || (a == b && StringLess(x, y))
  {
    if a == "" {
      assert a + x == x && b + y == y;
    } else {
      assert (a + x)[1..] == a[1..] + x && (b + y)[1..] == b[1..] + y;
      LessByParts(a[1..], b[1..], x, y);
      assert a == [a[0]] + a[1..] && b == [b[0]] + b[1..];
    }
  }

  lemma {:induction false} DigitLess(x: nat, y: nat)
    requires x < 10 && y < 10
    ensures StringLess([('0' as int + x) as char], [('0' as int + y) as char]) <==> x < y
    ensures ('0' as int + x) as char == ('0' as int + y) as char <==> x == y
  {
    var a, b := ('0' as int + x) as char, ('0' as int + y) as char;
    assert [a][1..] == "" && [b][1..] == "";
  }

  /** Padded numbers compare like the numbers. */
  lemma {:induction false} PaddedOrder(v: nat, u: nat, width: nat)
    requires v < Power10(width) && u < Power10(width)
    ensures StringLess(Padded(v, width), Padded(u, width)) <==> v < u
    ensures Padded(v, width) == Padded(u, width) <==> v == u
  {
    if width > 0 {
      var a, b := Padded(v / 10, width - 1), Padded(u / 10, width - 1);
      var x, y := [('0' as int + v % 10) as char], [('0' as int + u % 10) as char];
      PaddedOrder(v / 10, u / 10, width - 1);
      DigitLess(v % 10, u % 10);
      LessByParts(a, b, x, y);
      assert (a + x)[..width - 1] == a && (b + y)[..width - 1] == b;
      assert (a + x)[width - 1] == x[0] && (b + y)[width - 1] == y[0];
    }
  }

  /** The same with a separator between the parts. */
  lemma {:induction false} LessAround(a: string, b: string, c: char, x: string, y: string)
    requires |a| == |b|
    ensures StringLess(a + [c] + x, b + [c] + y) <==> StringLess(a, b) || (a == b && StringLess(x, y))
    ensures a + [c] + x == b + [c] + y <==> a == b && x == y
  {
    LessByParts(a + [c], b + [c], x, y);
    LessByParts(a, b, [c], [c]);
    StringLessTotal([c], [c]);
    assert (a + [c])[..|a|] == a && (b + [c])[..|b|] == b;
    assert (a + [c] + x)[..|a| + 1] == a + [c] && (b + [c] + y)[..|b| + 1] == b + [c];
    assert (a + [c] + x)[|a| + 1..] == x && (b + [c] + y)[|b| + 1..] == y;
  }

  /** In one fixed format, whatever it is, text order is time order. */
  lemma {:induction false} TextOrderIsTimeOrder(f: Format, t: seq<nat>, u: seq<nat>)
    requires Fills(f, t) && Fills(f, u)
    ensures StringLess(Written(f, t), Written(f, u)) <==> Earlier(t, u)
    ensures Written(f, t) == Written(f, u) <==> t == u
  {
    if f != [] {
      TextOrderIsTimeOrder(f[1..], t[1..], u[1..]);
      PaddedOrder(t[0], u[0], f[0].width);
      LessAround(Padded(t[0], f[0].width), Padded(u[0], f[0].width), f[0].separator,
                 Written(f[1..], t[1..]), Written(f[1..], u[1..]));
      assert t == [t[0]] + t[1..] && u == [u[0]] + u[1..];
    }
  }

  /** Records whose creation times are in one fixed format are sorted by time, and by id at equal times. */
  lemma {:induction false} NewerIsLater(f: Format, a: Record, b: Record, t: seq<nat>, u: seq<nat>)
    requires Fills(f, t) && Fills(f, u) && a.createdAt == Written(f, t) && b.createdAt == Written(f, u)
    ensures Newer(a, b) <==> Earlier(u, t) || (t == u && StringLess(b.id, a.id))
  {
    TextOrderIsTimeOrder(f, u, t);
  }

  /** Across formats it is not: a fraction of a second sorts a time before the full second it follows. */
  lemma {:induction false} FractionSortsFirst(second: string, fraction: string)
    ensures StringLess(second + "." + fraction + "Z", second + "Z")
  {
    assert second + "." + fraction + "Z" == second + ("." + fraction + "Z");
    LessByParts(second, second, "." + fraction + "Z", "Z");
    assert ("." + fraction + "Z")[0] == '.';
  }
}
