/**
 * `filefinder` (AccessViz.py:20-75): resolves requested YKR identifiers to
 * the paths of their travel-time matrix files, skipping identifiers that
 * are not in the grid without stopping the batch.
 */
module FileFinder {
  import opened Wrappers
  import opened PathNames
  import opened Layers

  /** The AssertionError raised for an empty request (AccessViz.py:39). */
  datatype FinderError = EmptyIdList

  /** The resolved paths, in request order, and the identifiers reported as missing. */
  datatype Resolution = Resolution(paths: seq<seq<string>>, missing: seq<int>)

  /** The requested identifiers found in the grid, in request order, repeats included. */
  function Found(ids: seq<int>, gridIds: seq<int>): (found: seq<int>)
    ensures forall x :: x in found ==> x in ids && x in gridIds
  {
    if ids == [] then []
    else Found(ids[..|ids| - 1], gridIds) + (if ids[|ids| - 1] in gridIds then [ids[|ids| - 1]] else [])
  }

  /** The requested identifiers missing from the grid, in request order. */
  function Missed(ids: seq<int>, gridIds: seq<int>): (missed: seq<int>)
    ensures forall x :: x in missed ==> x in ids && x !in gridIds
  {
    if ids == [] then []
    else Missed(ids[..|ids| - 1], gridIds) + (if ids[|ids| - 1] !in gridIds then [ids[|ids| - 1]] else [])
  }

  /** The matrix path of each identifier, position by position. */
  function PathsFor(folder: string, ids: seq<int>): (paths: seq<seq<string>>)
    ensures |paths| == |ids|
    ensures forall k :: 0 <= k < |ids| ==> paths[k] == MatrixPath(folder, ids[k])
  {
    if ids == [] then [] else [MatrixPath(folder, ids[0])] + PathsFor(folder, ids[1..])
  }

  /**
   * `filefinder` up to its return (AccessViz.py:39-67): an empty request
   * fails before anything is looked up; otherwise the grid's identifier list
   * is taken (AccessViz.py:44) and the requested identifiers resolved against it.
   */
  method FileFinder(ids: seq<int>, grid: seq<Cell>, folder: string) returns (r: Result<Resolution, FinderError>)
    ensures r.Failure? <==> ids == []
    ensures r.Success? ==> r.value.paths == PathsFor(folder, Found(ids, GridIds(grid)))
    ensures r.Success? ==> r.value.missing == Missed(ids, GridIds(grid))
  {
    if |ids| == 0 {
      return Failure(EmptyIdList);
    }
    var gridIds := GridIds(grid);
    var res := Resolve(ids, gridIds, folder);
    return Success(res);
  }

  /**
   * The loop of AccessViz.py:54-67: every requested identifier is visited;
   * one found in the grid gets its path appended, one that is not is reported
   * and skipped.
   */
  method Resolve(ids: seq<int>, gridIds: seq<int>, folder: string) returns (res: Resolution)
    ensures res.paths == PathsFor(folder, Found(ids, gridIds))
    ensures res.missing == Missed(ids, gridIds)
  {
    var paths: seq<seq<string>> := [];
    var missing: seq<int> := [];
    var i := 0;
    while i < |ids|
      invariant 0 <= i <= |ids|
      invariant paths == PathsFor(folder, Found(ids[..i], gridIds))
      invariant missing == Missed(ids[..i], gridIds)
    {
      var id := ids[i];
      assert ids[..i + 1] == ids[..i] + [id];
      FoundStep(ids[..i], id, gridIds);
      PathsForAppend(folder, Found(ids[..i], gridIds), id);
      if id in gridIds {
        paths := paths + [MatrixPath(folder, id)];
      } else {
        missing := missing + [id];
      }
      i := i + 1;
    }
    assert ids[..i] == ids;
    return Resolution(paths, missing);
  }

  lemma FoundStep(ids: seq<int>, id: int, gridIds: seq<int>)
    ensures Found(ids + [id], gridIds) == Found(ids, gridIds) + (if id in gridIds then [id] else [])
    ensures Missed(ids + [id], gridIds) == Missed(ids, gridIds) + (if id !in gridIds then [id] else [])
  {
  }

  lemma PathsForAppend(folder: string, ids: seq<int>, id: int)
    ensures PathsFor(folder, ids + [id]) == PathsFor(folder, ids) + [MatrixPath(folder, id)]
  {
    assert |PathsFor(folder, ids + [id])| == |PathsFor(folder, ids) + [MatrixPath(folder, id)]|;
  }

  /**
   * What `filefinder` returns for its `output` argument: the list of paths for
   * 'list'; nothing for 'text' (the paths go to file_paths.txt) or any other value.
   */
  function Returned(output: string, res: Resolution): (r: Option<seq<seq<string>>>)
    ensures r.Some? <==> output == "list"
    ensures r.Some? ==> r.value == res.paths
  {
    if output == "list" then Some(res.paths) else None
  }

  /** Every requested identifier is either resolved or reported: none is lost. */
  lemma {:induction false} PartitionCount(ids: seq<int>, gridIds: seq<int>)
    ensures |Found(ids, gridIds)| + |Missed(ids, gridIds)| == |ids|
  {
    if ids != [] { PartitionCount(ids[..|ids| - 1], gridIds); }
  }

  /** An identifier is resolved exactly when it was requested and is in the grid. */
  lemma {:induction false} FoundMembers(ids: seq<int>, gridIds: seq<int>, x: int)
    ensures x in Found(ids, gridIds) <==> x in ids && x in gridIds
  {
    if ids != [] {
      FoundMembers(ids[..|ids| - 1], gridIds, x);
      assert ids == ids[..|ids| - 1] + [ids[|ids| - 1]];
    }
  }

  /** An identifier is reported missing exactly when it was requested and is not in the grid. */
  lemma {:induction false} MissedMembers(ids: seq<int>, gridIds: seq<int>, x: int)
    ensures x in Missed(ids, gridIds) <==> x in ids && x !in gridIds
  {
    if ids != [] {
      MissedMembers(ids[..|ids| - 1], gridIds, x);
      assert ids == ids[..|ids| - 1] + [ids[|ids| - 1]];
    }
  }

  /** A repeated request is resolved as many times as it was requested. */
  lemma {:induction false} FoundMultiplicity(ids: seq<int>, gridIds: seq<int>, x: int)
    ensures multiset(Found(ids, gridIds))[x] == if x in gridIds then multiset(ids)[x] else 0
  {
    if ids != [] {
      FoundMultiplicity(ids[..|ids| - 1], gridIds, x);
      assert ids == ids[..|ids| - 1] + [ids[|ids| - 1]];
    }
  }

  /** Resolution works request by request: resolving a concatenation concatenates the results. */
  lemma {:induction false} FoundAppend(a: seq<int>, b: seq<int>, gridIds: seq<int>)
    ensures Found(a + b, gridIds) == Found(a, gridIds) + Found(b, gridIds)
    ensures Missed(a + b, gridIds) == Missed(a, gridIds) + Missed(b, gridIds)
    decreases |b|
  {
    if b != [] {
      var b' := b[..|b| - 1];
      assert (a + b)[..|a + b| - 1] == a + b';
      FoundAppend(a, b', gridIds);
    } else {
      assert a + b == a;
    }
  }

  /** The example of a batch with one identifier missing from the grid. */
  lemma ResolveExample()
    ensures Found([100, 200, 300], [100, 200]) == [100, 200]
    ensures Missed([100, 200, 300], [100, 200]) == [300]
  {
    assert [100, 200, 300][..2] == [100, 200];
    assert [100, 200][..1] == [100];
  }
}
