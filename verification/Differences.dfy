/** The bounded record of differences that a comparison keeps. */
module Differences {
  import opened Decimals

  datatype Reason =
    | Matched | ContractClassMismatch | StatusMismatch | RequiredHeaderMismatch
    | TypeMismatch | FieldMismatch | ArrayLengthMismatch | ValueMismatch

  datatype Rule = Ignore(index: nat) | Tolerated(index: nat) | Mapped(index: nat) | StatusPair(index: nat)

  datatype Tolerance = Tolerance(path: string, absolute: Dec)

  datatype FieldMapping = FieldMapping(v1Path: string, v2Path: string)

  datatype Policy = Policy(
    maxDepth: nat,
    maxNodes: nat,
    limits: NumberLimits,
    maxDifferences: nat,
    maxDiffPaths: nat,
    requiredHeaders: seq<string>,
    ignorePaths: seq<string>,
    tolerances: seq<Tolerance>,
    mappings: seq<FieldMapping>,
    allowedPaths: set<string>,
    allowEmptyBody: bool,
    statusEquivalences: seq<(int, int)>)

  datatype Summary = Summary(
    count: nat, limited: bool, paths: seq<string>, redacted: nat, truncated: bool, reason: Reason)

  const EMPTY := Summary(0, false, [], 0, false, Matched)

  function AddTo(p: Policy, s: Summary, path: string, reason: Reason): Summary
  {
    if s.count == p.maxDifferences then s.(limited := true)
    else
      s.(count := s.count + 1,
         reason := if s.count == 0 then reason else s.reason,
         redacted := if path in p.allowedPaths then s.redacted else s.redacted + 1,
         paths := if path in p.allowedPaths && |s.paths| < p.maxDiffPaths then s.paths + [path] else s.paths,
         truncated := s.truncated || (path in p.allowedPaths && |s.paths| >= p.maxDiffPaths))
  }

  /** The record as an object updated in place. */
  class DifferenceRecord {
    const policy: Policy
    var count: nat
    var limited: bool
    var paths: seq<string>
    var redacted: nat
    var pathsTruncated: bool
    var reason: Reason

    constructor (p: Policy)
      ensures policy == p && Content() == EMPTY
    {
      policy := p;
      count, limited, paths, redacted, pathsTruncated, reason := 0, false, [], 0, false, Matched;
    }

    function Content(): Summary
      reads this
    {
      Summary(count, limited, paths, redacted, pathsTruncated, reason)
    }

    method Add(path: string, why: Reason)
      modifies this
      ensures Content() == AddTo(policy, old(Content()), path, why)
    {
      if count == policy.maxDifferences {
        limited := true;
        return;
      }
      if count == 0 {
        reason := why;
      }
      count := count + 1;
      if path !in policy.allowedPaths {
        redacted := redacted + 1;
      } else if |paths| < policy.maxDiffPaths {
        paths := paths + [path];
      } else {
        pathsTruncated := true;
      }
    }
  }

  // ----- what the record says about a list of differences -----

  datatype Difference = Difference(path: string, reason: Reason)

  function AddAll(p: Policy, s: Summary, ds: seq<Difference>): Summary
  {
    if ds == [] then s
    else
      var n := |ds| - 1;
      AddTo(p, AddAll(p, s, ds[..n]), ds[n].path, ds[n].reason)
  }

  /** The recorded differences: as many as the limit allows, from the front. */
  function Kept(p: Policy, ds: seq<Difference>): seq<Difference>
  {
    if |ds| <= p.maxDifferences then ds else ds[..p.maxDifferences]
  }

  /** The paths among them that may be shown, in order. */
  function Shown(p: Policy, ds: seq<Difference>): seq<string>
  {
    if ds == [] then []
    else
      var n := |ds| - 1;
      Shown(p, ds[..n]) + (if ds[n].path in p.allowedPaths then [ds[n].path] else [])
  }

  /**
   The record kept for any list of differences: the count saturates at its limit and says so, the
   reason is that of the first difference, the paths are the first that may be shown, and the rest
   of the recorded ones are counted as redacted.
   */
  ghost predicate Describes(p: Policy, s: Summary, ds: seq<Difference>)
  {
    var shown := Shown(p, Kept(p, ds));
    && s.count == |Kept(p, ds)|
    && s.limited == (|ds| > p.maxDifferences)
    && s.reason == (if ds == [] then Matched else ds[0].reason)
    && s.paths == (if |shown| <= p.maxDiffPaths then shown else shown[..p.maxDiffPaths])
    && s.truncated == (|shown| > p.maxDiffPaths)
    && s.redacted == |Kept(p, ds)| - |shown|
  }

  lemma {:induction false} RecordDescribes(p: Policy, ds: seq<Difference>)
    requires p.maxDifferences > 0
    ensures Describes(p, AddAll(p, EMPTY, ds), ds)
    decreases |ds|
  {
    if ds != [] {
      var n := |ds| - 1;
      RecordDescribes(p, ds[..n]);
      if n < p.maxDifferences {
        assert Kept(p, ds) == ds && Kept(p, ds[..n]) == ds[..n];
        ShownShorter(p, ds[..n]);
      } else {
        assert Kept(p, ds) == Kept(p, ds[..n]);
        assert ds[..n][0] == ds[0];
      }
    }
  }

  lemma {:induction false} ShownShorter(p: Policy, ds: seq<Difference>)
    ensures |Shown(p, ds)| <= |ds|
  {
    if ds != [] {
      ShownShorter(p, ds[..|ds| - 1]);
    }
  }
}
