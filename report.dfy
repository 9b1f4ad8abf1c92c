/**
 * The reporting loop copyit.py uses three times
 * (`for i in xs: if i not in ys: report(i)`): in `manifest_existence`
 * both ways between the directory's names and the manifest's names, in
 * `diff_report` for manifest lines, and in `check_extra_files` for paths.
 */
module Reports {

  /** The elements of `xs` that are not elements of `ys`, in the order of
    * `xs`, repeats included. */
  function Missing<T(==)>(xs: seq<T>, ys: seq<T>): (r: seq<T>)
    ensures |r| <= |xs|
  {
    if xs == [] then []
    else
      var last := xs[|xs| - 1];
      Missing(xs[..|xs| - 1], ys) + (if last in ys then [] else [last])
  }

  lemma MissingSnoc<T>(xs: seq<T>, ys: seq<T>, i: nat)
    requires i < |xs|
    ensures Missing(xs[..i + 1], ys) == Missing(xs[..i], ys) + (if xs[i] in ys then [] else [xs[i]])
  {
    assert xs[..i + 1][..i] == xs[..i];
  }

  /** One report per element of `xs`, in order, for each one `ys` lacks. */
  method ReportMissing<T(==)>(xs: seq<T>, ys: seq<T>) returns (reported: seq<T>)
    ensures reported == Missing(xs, ys)
  {
    reported := [];
    var i := 0;
    while i < |xs|
      invariant 0 <= i <= |xs|
      invariant reported == Missing(xs[..i], ys)
    {
      MissingSnoc(xs, ys, i);
      if xs[i] !in ys {
        reported := reported + [xs[i]];
      }
      i := i + 1;
    }
    assert xs[..i] == xs;
  }

  /** Exactly the elements of `xs` absent from `ys` are reported. */
  lemma {:induction false} MissingMembers<T>(xs: seq<T>, ys: seq<T>, x: T)
    ensures x in Missing(xs, ys) <==> x in xs && x !in ys
  {
    if xs != [] {
      var init, last := xs[..|xs| - 1], xs[|xs| - 1];
      MissingMembers(init, ys, x);
      assert xs == init + [last];
    }
  }

  /** Nothing is reported exactly when every element of `xs` is in `ys`. */
  lemma MissingEmpty<T>(xs: seq<T>, ys: seq<T>)
    ensures Missing(xs, ys) == [] <==> forall x :: x in xs ==> x in ys
  {
    if Missing(xs, ys) != [] {
      var x := Missing(xs, ys)[0];
      MissingMembers(xs, ys, x);
    } else {
      forall x | x in xs
        ensures x in ys
      {
        MissingMembers(xs, ys, x);
      }
    }
  }

  /** When `ys` shares nothing with `xs`, every element is reported, in order. */
  lemma {:induction false} MissingDisjoint<T>(xs: seq<T>, ys: seq<T>)
    requires forall x :: x in xs ==> x !in ys
    ensures Missing(xs, ys) == xs
  {
    if xs != [] {
      var init := xs[..|xs| - 1];
      assert forall x :: x in init ==> x in xs;
      MissingDisjoint(init, ys);
      assert xs == init + [xs[|xs| - 1]];
    }
  }
}
