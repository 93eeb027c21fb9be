// PathXSeries: a series of 2D toolpaths held as one point list cut by
// break indices, with one (3D) link path per break.

module PathSeries {
  import opened Geom

  /** Every entry at most n and the entries in non-decreasing order. */
  predicate BreaksWithin(brks: seq<int>, n: int) {
    (forall i :: 0 <= i < |brks| ==> 0 <= brks[i] <= n) &&
    (forall i :: 0 < i < |brks| ==> brks[i - 1] <= brks[i])
  }

  /** No break lies beyond the last one. */
  lemma {:induction false} BreaksBelowLast(brks: seq<int>, n: int)
    requires BreaksWithin(brks, n) && brks != []
    ensures BreaksWithin(brks, brks[|brks| - 1])
  {
    if |brks| > 1 {
      var init := brks[..|brks| - 1];
      assert BreaksWithin(init, n);
      BreaksBelowLast(init, n);
      assert init[|init| - 1] <= brks[|brks| - 1];
    }
  }

  class PathXSeries {
    var z: real
    /** The points of all the paths, one after the other. */
    var pths: seq<P2>
    /** Indices into pths where one path ends and the next begins. */
    var brks: seq<int>
    /** The link paths, parallel to brks. */
    var linkpths: seq<seq<P3>>

    /** Breaks stay ordered and inside the point list; links run parallel to them. */
    predicate Valid()
      reads this
    {
      |brks| == |linkpths| && BreaksWithin(brks, |pths|)
    }

    /** PathXSeries(): no points and no breaks; z is left as the code leaves it, unspecified. */
    constructor ()
      ensures pths == [] && brks == [] && linkpths == []
      ensures Valid()
    {
      z := 0.0;
      pths, brks, linkpths := [], [], [];
    }

    /** PathXSeries(lz): an empty series at height lz. */
    constructor AtZ(lz: real)
      ensures z == lz && pths == [] && brks == [] && linkpths == []
      ensures Valid()
    {
      z := lz;
      pths, brks, linkpths := [], [], [];
    }

    /** Appends one point to the current path. */
    method Add(pt: P2)
      requires Valid()
      modifies this
      ensures pths == old(pths) + [pt]
      ensures brks == old(brks) && linkpths == old(linkpths) && z == old(z)
      ensures Valid()
    {
      pths := pths + [pt];
    }

    /** Ends the current path: a break at the end of the points and an empty link path. */
    method Break()
      requires Valid()
      modifies this
      ensures brks == old(brks) + [|pths|] && linkpths == old(linkpths) + [[]]
      ensures pths == old(pths) && z == old(z)
      ensures Valid()
    {
      brks := brks + [|pths|];
      linkpths := linkpths + [[]];
    }

    /** Appends a whole path and closes it with one break. */
    method Append(lpths: seq<P2>)
      requires Valid()
      modifies this
      ensures pths == old(pths) + lpths
      ensures brks == old(brks) + [|old(pths)| + |lpths|] && linkpths == old(linkpths) + [[]]
      ensures z == old(z)
      ensures Valid()
    {
      pths := pths + lpths;
      Break();
    }

    /**
      * Removes the last point unless a break sits at the end of the points,
      * so that no closed path is ever shortened.
      */
    method Pop_back()
      requires Valid()
      requires brks == [] ==> pths != []
      modifies this
      ensures if old(brks) == [] || |old(pths)| != old(brks)[|old(brks)| - 1] then
          pths == old(pths)[..|old(pths)| - 1]
        else
          pths == old(pths)
      ensures brks == old(brks) && linkpths == old(linkpths) && z == old(z)
      ensures Valid()
    {
      if brks == [] || |pths| != brks[|brks| - 1] {
        if brks != [] {
          BreaksBelowLast(brks, |pths|);
        }
        pths := pths[..|pths| - 1];
      }
    }

    function GetNbrks(): (r: int)
      reads this
      ensures r == |brks|
    {
      |brks|
    }

    /** The i-th break: a point index no greater than the next break or the number of points. */
    function GetBrkIndex(i: int): (r: int)
      reads this
      requires Valid() && 0 <= i < |brks|
      ensures 0 <= r <= GetNpts()
      ensures i + 1 < |brks| ==> r <= brks[i + 1]
    {
      brks[i]
    }

    function GetNlnks(j: int): (r: int)
      reads this
      requires 0 <= j < |linkpths|
      ensures r == |linkpths[j]|
    {
      |linkpths[j]|
    }

    function GetLinkX(j: int, i: int): real
      reads this
      requires 0 <= j < |linkpths| && 0 <= i < |linkpths[j]|
    {
      linkpths[j][i].x
    }

    function GetLinkY(j: int, i: int): real
      reads this
      requires 0 <= j < |linkpths| && 0 <= i < |linkpths[j]|
    {
      linkpths[j][i].y
    }

    function GetLinkZ(j: int, i: int): real
      reads this
      requires 0 <= j < |linkpths| && 0 <= i < |linkpths[j]|
    {
      linkpths[j][i].z
    }

    function GetNpts(): (r: int)
      reads this
      ensures r == |pths|
    {
      |pths|
    }

    function GetX(i: int): real
      reads this
      requires 0 <= i < |pths|
    {
      pths[i].u
    }

    function GetY(i: int): real
      reads this
      requires 0 <= i < |pths|
    {
      pths[i].v
    }
  }

  /** The paths a series holds: the points between consecutive breaks, the last path open. */
  function PathsOf(pths: seq<P2>, brks: seq<int>): (r: seq<seq<P2>>)
    requires BreaksWithin(brks, |pths|)
    ensures |r| == |brks| + 1
    ensures |brks| == 0 ==> r == [pths]
    decreases |brks|
  {
    if brks == [] then [pths]
    else
      var last := brks[|brks| - 1];
      BreaksBelowLast(brks, |pths|);
      assert BreaksWithin(brks[..|brks| - 1], last);
      PathsOf(pths[..last], brks[..|brks| - 1]) + [pths[last..]]
  }

  /** The paths up to the last break, then the open path after it. */
  lemma {:induction false} PathsOfLast(pths: seq<P2>, brks: seq<int>)
    requires BreaksWithin(brks, |pths|) && brks != []
    ensures BreaksWithin(brks[..|brks| - 1], brks[|brks| - 1])
    ensures PathsOf(pths, brks) ==
      PathsOf(pths[..brks[|brks| - 1]], brks[..|brks| - 1]) + [pths[brks[|brks| - 1]..]]
  {
    BreaksBelowLast(brks, |pths|);
  }

  /** Points added after the last break extend the open path and nothing else. */
  lemma {:induction false} ExtendOpenPath(pths: seq<P2>, brks: seq<int>, lpths: seq<P2>)
    requires BreaksWithin(brks, |pths|)
    ensures BreaksWithin(brks, |pths + lpths|)
    ensures PathsOf(pths + lpths, brks) ==
      PathsOf(pths, brks)[..|brks|] + [PathsOf(pths, brks)[|brks|] + lpths]
  {
    if brks != [] {
      var np := pths + lpths;
      var last := brks[|brks| - 1];
      PathsOfLast(np, brks);
      PathsOfLast(pths, brks);
      assert np[..last] == pths[..last];
      assert np[last..] == pths[last..] + lpths;
      var X := PathsOf(pths[..last], brks[..|brks| - 1]);
      assert PathsOf(pths, brks) == X + [pths[last..]];
      assert PathsOf(pths, brks)[..|brks|] == X;
    }
  }

  /** A break at the end of the points closes the open path and opens an empty one. */
  lemma {:induction false} BreakAtEnd(pths: seq<P2>, brks: seq<int>)
    requires BreaksWithin(brks, |pths|)
    ensures BreaksWithin(brks + [|pths|], |pths|)
    ensures PathsOf(pths, brks + [|pths|]) == PathsOf(pths, brks) + [[]]
  {
    var nb := brks + [|pths|];
    assert nb[..|nb| - 1] == brks;
    assert pths[..|pths|] == pths && pths[|pths|..] == [];
    PathsOfLast(pths, nb);
  }

  /**
    * Append closes the open path, extended by the appended points, and
    * opens a new empty one; the earlier closed paths are untouched.
    */
  lemma {:induction false} AppendClosesPath(pths: seq<P2>, brks: seq<int>, lpths: seq<P2>)
    requires BreaksWithin(brks, |pths|)
    ensures BreaksWithin(brks + [|pths| + |lpths|], |pths + lpths|)
    ensures PathsOf(pths + lpths, brks + [|pths| + |lpths|]) ==
      PathsOf(pths, brks)[..|brks|] + [PathsOf(pths, brks)[|brks|] + lpths, []]
  {
    ExtendOpenPath(pths, brks, lpths);
    BreakAtEnd(pths + lpths, brks);
  }

  /** The open path is empty exactly when a break sits at the end of the points (or there are none). */
  lemma {:induction false} OpenPathEmpty(pths: seq<P2>, brks: seq<int>)
    requires BreaksWithin(brks, |pths|)
    ensures PathsOf(pths, brks)[|brks|] == [] <==>
      if brks == [] then pths == [] else brks[|brks| - 1] == |pths|
  {
    if brks != [] {
      PathsOfLast(pths, brks);
    }
  }

  /** Pop_back's step: dropping the last point shortens the open path by one. */
  lemma {:induction false} PopOpenPath(pths: seq<P2>, brks: seq<int>)
    requires BreaksWithin(brks, |pths|) && PathsOf(pths, brks)[|brks|] != []
    ensures pths != [] && BreaksWithin(brks, |pths| - 1)
    ensures var open := PathsOf(pths, brks)[|brks|];
      PathsOf(pths[..|pths| - 1], brks) == PathsOf(pths, brks)[..|brks|] + [open[..|open| - 1]]
  {
    OpenPathEmpty(pths, brks);
    var n := |pths|;
    if brks != [] {
      BreaksBelowLast(brks, n);
    }
    var p' := pths[..n - 1];
    assert BreaksWithin(brks, n - 1);
    ExtendOpenPath(p', brks, [pths[n - 1]]);
    assert p' + [pths[n - 1]] == pths;
  }
}
