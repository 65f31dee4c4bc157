/** Path templates: what they accept, which paths they match, and when two of them can match the same path. */
module Templates {
  import opened Options
  import opened Segments

  predicate NameStart(c: char) { 'A' <= c <= 'Z' || 'a' <= c <= 'z' || c == '_' }

  predicate NameChar(c: char) { NameStart(c) || '0' <= c <= '9' }

  /** The pattern of a whole-segment parameter. */
  predicate IsParameter(part: string)
  {
    |part| >= 3 && part[0] == '{' && part[|part| - 1] == '}' && NameStart(part[1])
    && forall i :: 1 <= i < |part| - 1 ==> NameChar(part[i])
  }

  /** The test that matching uses: it starts with an opening brace and ends with a closing one. */
  predicate Braced(part: string)
  {
    part != "" && part[0] == '{' && part[|part| - 1] == '}'
  }

  predicate SegmentOk(part: string)
  {
    IsParameter(part) || ('{' !in part && '}' !in part && part != "." && part != "..")
  }

  predicate CharOk(c: char) { c as int >= 33 && c != '?' && c != '#' && c != '*' && c != '\\' }

  ghost predicate Accepts(template: string)
  {
    && template != "" && template[0] == '/' && !(|template| >= 2 && template[1] == '/')
    && (forall i :: 0 <= i < |template| ==> CharOk(template[i]))
    && PartsOk(Split(template))
  }

  /** Segments are plain or whole parameters, and no parameter is used twice. */
  ghost predicate PartsOk(parts: seq<string>)
  {
    && (forall i :: 0 <= i < |parts| ==> SegmentOk(parts[i]))
    && Once(parts)
  }

  ghost predicate Once(parts: seq<string>)
  {
    forall i, j :: 0 <= i < j < |parts| && IsParameter(parts[i]) ==> parts[i] != parts[j]
  }

  /** Among accepted segments the looser test of matching finds exactly the parameters. */
  lemma BracedIsParameter(part: string)
    requires SegmentOk(part)
    ensures Braced(part) <==> IsParameter(part)
  {
    assert part != "" ==> part[0] in part;
  }

  /** Validates a template and returns its segments; None stands for the configuration error. */
  method TemplateParts(template: string) returns (parts: Option<seq<string>>)
    ensures parts.Some? <==> Accepts(template)
    ensures parts.Some? ==> parts.value == Split(template)
  {
    if template == "" || template[0] != '/' || (|template| >= 2 && template[1] == '/') {
      return None;
    }
    if exists i :: 0 <= i < |template| && !CharOk(template[i]) {
      return None;
    }
    var split := Split(template);
    var names: seq<string> := [];
    var n := 0;
    while n < |split|
      invariant 0 <= n <= |split|
      invariant forall i :: 0 <= i < n ==> SegmentOk(split[i])
      invariant names == ParametersOf(split[..n])
    {
      assert split[..n + 1][..n] == split[..n];
      if IsParameter(split[n]) {
        names := names + [split[n]];
      } else if '{' in split[n] || '}' in split[n] || split[n] == "." || split[n] == ".." {
        return None;
      }
      n := n + 1;
    }
    assert split[..n] == split;
    NamesAreUnique(split);
    NamesAsSet(names);
    if |NameSet(names)| != |names| {
      return None;
    }
    return Some(split);
  }

  function ParametersOf(parts: seq<string>): seq<string>
  {
    if parts == [] then []
    else ParametersOf(parts[..|parts| - 1]) + (if IsParameter(parts[|parts| - 1]) then [parts[|parts| - 1]] else [])
  }

  ghost predicate Unique(names: seq<string>)
  {
    forall i, j :: 0 <= i < j < |names| ==> names[i] != names[j]
  }

  lemma {:induction false} ParametersAre(parts: seq<string>)
    ensures forall p :: p in ParametersOf(parts) <==> p in parts && IsParameter(p)
  {
    if parts != [] {
      ParametersAre(parts[..|parts| - 1]);
      assert parts == parts[..|parts| - 1] + [parts[|parts| - 1]];
    }
  }

  lemma OnceSnoc(parts: seq<string>)
    requires parts != []
    ensures
      var n := |parts| - 1;
      Once(parts) <==> Once(parts[..n]) && (IsParameter(parts[n]) ==> parts[n] !in parts[..n])
  {
    var n := |parts| - 1;
    assert forall i :: 0 <= i < n ==> parts[..n][i] == parts[i];
    if Once(parts[..n]) && (IsParameter(parts[n]) ==> parts[n] !in parts[..n]) {
      forall i, j | 0 <= i < j < |parts| && IsParameter(parts[i]) ensures parts[i] != parts[j] {
        assert parts[..n][i] == parts[i];
        if j < n {
          assert parts[..n][j] == parts[j];
        }
      }
    }
  }

  lemma UniqueSnoc(names: seq<string>, name: string)
    ensures Unique(names + [name]) <==> Unique(names) && name !in names
  {
    var more := names + [name];
    assert forall i :: 0 <= i < |names| ==> more[i] == names[i];
    assert more[|names|] == name;
  }

  lemma {:induction false} NamesAreUnique(parts: seq<string>)
    ensures Unique(ParametersOf(parts)) <==> Once(parts)
  {
    hide Unique, Once, IsParameter;
    if parts != [] {
      var n := |parts| - 1;
      NamesAreUnique(parts[..n]);
      ParametersAre(parts[..n]);
      OnceSnoc(parts);
      UniqueSnoc(ParametersOf(parts[..n]), parts[n]);
      assert ParametersOf(parts[..n]) + [] == ParametersOf(parts[..n]);
    } else {
      assert Unique([]) && Once([]) by { NothingRepeats(); }
    }
  }

  lemma NothingRepeats()
    ensures Unique([]) && Once([])
  {
  }

  function NameSet(names: seq<string>): set<string>
  {
    set name | name in names
  }

  lemma NameSetSnoc(names: seq<string>, name: string)
    ensures NameSet(names + [name]) == NameSet(names) + {name}
    ensures name in NameSet(names) <==> name in names
  {
  }

  /** `len(set(names)) != len(names)` finds exactly the repeated names. */
  lemma {:induction false} NamesAsSet(names: seq<string>)
    ensures |NameSet(names)| <= |names|
    ensures |NameSet(names)| == |names| <==> Unique(names)
  {
    hide Unique, NameSet;
    if names != [] {
      var n := |names| - 1;
      NamesAsSet(names[..n]);
      assert names == names[..n] + [names[n]];
      NameSetSnoc(names[..n], names[n]);
      UniqueSnoc(names[..n], names[n]);
    } else {
      NothingRepeats();
      assert NameSet([]) == {} by { NoNames(); }
    }
  }

  lemma NoNames()
    ensures NameSet([]) == {}
  {
  }

  // ----- matching -----

  /** One request segment against one template segment. */
  predicate Fits(expected: string, actual: string)
  {
    (Braced(expected) && actual != "") || expected == actual
  }

  predicate Matches(parts: seq<string>, request: seq<string>)
  {
    |parts| == |request| && forall i :: 0 <= i < |parts| ==> Fits(parts[i], request[i])
  }

  predicate Clash(a: string, b: string)
  {
    a == b || (b != "" && IsParameter(a)) || (a != "" && IsParameter(b))
  }

  predicate Overlap(a: seq<string>, b: seq<string>)
  {
    |a| == |b| && forall i :: 0 <= i < |a| ==> Clash(a[i], b[i])
  }

  /** A request segment that two clashing template segments both accept. */
  function Shared(a: string, b: string): string
  {
    if IsParameter(a) && IsParameter(b) then "x" else if IsParameter(a) then b else a
  }

  function SharedPath(a: seq<string>, b: seq<string>): string
    requires |a| == |b| >= 1
  {
    Join(seq(|a|, i requires 0 <= i < |a| => Shared(a[i], b[i])))
  }

  lemma ClashIsExact(a: string, b: string)
    requires SegmentOk(a) && SegmentOk(b)
    ensures Clash(a, b) <==> Fits(a, Shared(a, b)) && Fits(b, Shared(a, b))
    ensures forall actual :: Fits(a, actual) && Fits(b, actual) ==> Clash(a, b)
  {
    BracedIsParameter(a);
    BracedIsParameter(b);
  }

  /**
   The overlap check is exact: it holds of two accepted templates if and only if there is a request
   path that both of them match.
   */
  lemma OverlapIsExact(a: string, b: string)
    requires Accepts(a) && Accepts(b)
    ensures Overlap(Split(a), Split(b)) <==> exists path :: Matches(Split(a), Split(path)) && Matches(Split(b), Split(path))
  {
    var pa, pb := Split(a), Split(b);
    if Overlap(pa, pb) {
      var path := SharedPath(pa, pb);
      var parts := seq(|pa|, i requires 0 <= i < |pa| => Shared(pa[i], pb[i]));
      SplitHasNoSlash(a);
      SplitHasNoSlash(b);
      assert forall i :: 0 <= i < |parts| ==> NoSlash(parts[i]);
      SplitJoin(parts);
      forall i | 0 <= i < |pa| ensures Fits(pa[i], parts[i]) && Fits(pb[i], parts[i]) {
        ClashIsExact(pa[i], pb[i]);
      }
      assert Matches(pa, Split(path)) && Matches(pb, Split(path));
    }
    forall path | Matches(pa, Split(path)) && Matches(pb, Split(path)) ensures Overlap(pa, pb) {
      forall i | 0 <= i < |pa| ensures Clash(pa[i], pb[i]) {
        ClashIsExact(pa[i], pb[i]);
        assert Fits(pa[i], Split(path)[i]) && Fits(pb[i], Split(path)[i]);
      }
    }
  }
}
