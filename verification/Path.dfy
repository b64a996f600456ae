/** Path normalisation: src/vfs/path.rs. */
module Paths {
  import opened Base

  const MAX_PATH_DEPTH: nat := 256

  type Path = seq<string>

  /** The pieces between separators, in order; a string without one is a single piece. */
  function Split(s: string, sep: char): (parts: seq<string>)
    ensures |parts| >= 1
    ensures forall i :: 0 <= i < |parts| ==> sep !in parts[i]
  {
    if s == "" then [""]
    else
      var rest := Split(s[1..], sep);
      if s[0] == sep then [""] + rest else [[s[0]] + rest[0]] + rest[1..]
  }

  lemma {:induction false} SplitChars(s: string, sep: char, c: char)
    requires c !in s
    ensures forall i :: 0 <= i < |Split(s, sep)| ==> c !in Split(s, sep)[i]
  {
    if s != "" {
      SplitChars(s[1..], sep, c);
    }
  }

  function Join(parts: seq<string>, sep: char): (s: string)
  {
    if parts == [] then ""
    else if |parts| == 1 then parts[0]
    else parts[0] + [sep] + Join(parts[1..], sep)
  }

  lemma {:induction false} SplitPiece(a: string, rest: string, sep: char)
    requires sep !in a
    ensures Split(a + [sep] + rest, sep) == [a] + Split(rest, sep)
    ensures Split(a, sep) == [a]
  {
    if a == "" {
      assert a + [sep] + rest == [sep] + rest;
    } else {
      assert (a + [sep] + rest)[1..] == a[1..] + [sep] + rest;
      SplitPiece(a[1..], rest, sep);
      assert [a[0]] + a[1..] == a;
    }
  }

  /** A separator between two texts separates their pieces. */
  lemma {:induction false} SplitAppend(a: string, t: string, sep: char)
    ensures Split(a + [sep] + t, sep) == Split(a, sep) + Split(t, sep)
  {
    if a == "" {
      assert a + [sep] + t == [sep] + t && ([sep] + t)[1..] == t;
    } else {
      assert (a + [sep] + t)[1..] == a[1..] + [sep] + t;
      SplitAppend(a[1..], t, sep);
    }
  }

  lemma {:induction false} SplitJoin(parts: seq<string>, sep: char)
    requires parts != []
    requires forall i :: 0 <= i < |parts| ==> sep !in parts[i]
    ensures Split(Join(parts, sep), sep) == parts
  {
    if |parts| == 1 {
      SplitPiece(parts[0], "", sep);
    } else {
      SplitJoin(parts[1..], sep);
      SplitPiece(parts[0], Join(parts[1..], sep), sep);
    }
  }

  /** A component that names an entry, as opposed to an empty piece, `.` or `..`. */
  predicate IsName(c: string) {
    c != "" && c != "." && c != ".." && '/' !in c && '\0' !in c
  }

  /** The paths that normalisation can produce. */
  predicate IsNormal(p: Path) {
    |p| <= MAX_PATH_DEPTH && forall i :: 0 <= i < |p| ==> IsName(p[i])
  }

  /** Resolves pieces against the components collected so far. */
  function Resolve(parts: seq<string>, acc: Path): (r: Result<Path>)
    decreases |parts|
  {
    if parts == [] then Ok(acc)
    else if parts[0] == "" || parts[0] == "." then Resolve(parts[1..], acc)
    else if parts[0] == ".." then Resolve(parts[1..], if acc == [] then [] else acc[..|acc| - 1])
    else if |acc| >= MAX_PATH_DEPTH then Err(EINVAL)
    else Resolve(parts[1..], acc + [parts[0]])
  }

  function Normalize(path: string): (r: Result<Path>) {
    if path == "" || path[0] != '/' || '\0' in path then Err(EINVAL)
    else Resolve(Split(path, '/'), [])
  }

  /** `normalize_path`: the loop that pushes and pops components. */
  method NormalizePath(path: string) returns (r: Result<Path>)
    ensures r == Normalize(path)
    ensures r.Ok? ==> IsNormal(r.value)
    ensures r.Err? ==> r.errno == EINVAL
  {
    NormalizeIsNormal(path);
    if path == "" || path[0] != '/' || '\0' in path {
      return Err(EINVAL);
    }
    var components: Path := [];
    var parts := Split(path, '/');
    for i := 0 to |parts|
      invariant Resolve(parts, []) == Resolve(parts[i..], components)
    {
      var component := parts[i];
      assert parts[i..][1..] == parts[i + 1..];
      if component == "" || component == "." {
      } else if component == ".." {
        components := if components == [] then [] else components[..|components| - 1];
      } else {
        if |components| >= MAX_PATH_DEPTH {
          return Err(EINVAL);
        }
        components := components + [component];
      }
    }
    return Ok(components);
  }

  lemma {:induction false} ResolveIsNormal(parts: seq<string>, acc: Path)
    requires forall i :: 0 <= i < |parts| ==> '/' !in parts[i] && '\0' !in parts[i]
    requires IsNormal(acc)
    ensures Resolve(parts, acc).Ok? ==> IsNormal(Resolve(parts, acc).value)
    ensures Resolve(parts, acc).Err? ==> Resolve(parts, acc).errno == EINVAL
    decreases |parts|
  {
    if parts == [] {
    } else if parts[0] == "" || parts[0] == "." {
      ResolveIsNormal(parts[1..], acc);
    } else if parts[0] == ".." {
      ResolveIsNormal(parts[1..], if acc == [] then [] else acc[..|acc| - 1]);
    } else if |acc| < MAX_PATH_DEPTH {
      ResolveIsNormal(parts[1..], acc + [parts[0]]);
    }
  }

  /** Whatever is normalised has at most 256 components, each a proper name. */
  lemma NormalizeIsNormal(path: string)
    ensures Normalize(path).Ok? ==> IsNormal(Normalize(path).value)
    ensures Normalize(path).Err? ==> Normalize(path).errno == EINVAL
  {
    if path != "" && path[0] == '/' && '\0' !in path {
      SplitChars(path, '/', '\0');
      ResolveIsNormal(Split(path, '/'), []);
    }
  }

  lemma {:induction false} ResolveNames(names: Path, acc: Path)
    requires IsNormal(acc + names)
    ensures Resolve(names, acc) == Ok(acc + names)
    decreases |names|
  {
    if names == [] {
      assert acc + names == acc;
    } else {
      assert acc + [names[0]] + names[1..] == acc + names;
      assert IsName((acc + names)[|acc|]);
      ResolveNames(names[1..], acc + [names[0]]);
    }
  }

  /** The absolute path text of a component list. */
  function Absolute(p: Path): (s: string) {
    ['/'] + Join(p, '/')
  }

  lemma {:induction false} JoinChars(parts: seq<string>, sep: char, c: char)
    requires c != sep && forall i :: 0 <= i < |parts| ==> c !in parts[i]
    ensures c !in Join(parts, sep)
  {
    if |parts| > 1 {
      JoinChars(parts[1..], sep, c);
    }
  }

  /** Rejoining normal components and normalising again loses nothing. */
  lemma NormalizeAbsolute(p: Path)
    requires IsNormal(p)
    ensures Normalize(Absolute(p)) == Ok(p)
  {
    var s := Absolute(p);
    JoinChars(p, '/', '\0');
    assert s[0] == '/' && '\0' !in s;
    SplitPiece("", Join(p, '/'), '/');
    assert s == "" + ['/'] + Join(p, '/');
    if p == [] {
      assert Split(s, '/') == ["", ""];
      assert ["", ""][1..] == [""] && [""][1..] == [];
    } else {
      SplitJoin(p, '/');
      assert Split(s, '/') == [""] + p;
      assert ([""] + p)[1..] == p;
      assert [] + p == p;
      ResolveNames(p, []);
    }
  }

  /** Normalisation is idempotent through the text form, for every path it accepts. */
  lemma NormalizeIdempotent(path: string)
    requires Normalize(path).Ok?
    ensures Normalize(Absolute(Normalize(path).value)) == Normalize(path)
  {
    NormalizeIsNormal(path);
    NormalizeAbsolute(Normalize(path).value);
  }

  // ------------------------------------------------------------- laws on the text

  lemma {:induction false} ResolveAppend(a: seq<string>, b: seq<string>, acc: Path)
    ensures Resolve(a + b, acc) == if Resolve(a, acc).Ok? then Resolve(b, Resolve(a, acc).value) else Resolve(a, acc)
    decreases |a|
  {
    if a == [] {
      assert a + b == b;
    } else {
      assert (a + b)[1..] == a[1..] + b;
      if a[0] == "" || a[0] == "." {
        ResolveAppend(a[1..], b, acc);
      } else if a[0] == ".." {
        ResolveAppend(a[1..], b, if acc == [] then [] else acc[..|acc| - 1]);
      } else if |acc| < MAX_PATH_DEPTH {
        ResolveAppend(a[1..], b, acc + [a[0]]);
      }
    }
  }

  /** After a `/`, a path goes on from where it was; a path that fails, fails for good. */
  lemma NormalizeContinues(p: string, t: string)
    requires p != ""
    ensures Normalize(p).Ok? ==>
      Normalize(p + "/" + t) == if '\0' in t then Err(EINVAL) else Resolve(Split(t, '/'), Normalize(p).value)
    ensures Normalize(p).Err? ==> Normalize(p + "/" + t) == Err(EINVAL)
  {
    NormalizeIsNormal(p);
    var s := p + "/" + t;
    assert s[0] == p[0] && ('\0' in s <==> '\0' in p || '\0' in t);
    SplitAppend(p, t, '/');
    ResolveAppend(Split(p, '/'), Split(t, '/'), []);
  }

  /** Only absolute paths are accepted, and `/` is the root. The empty path is not accepted, though
      `/` after it is. */
  lemma NormalizeStarts(p: string)
    ensures Normalize("/") == Ok([]) && Normalize("") == Err(EINVAL)
    ensures (p != "" && p[0] != '/') || '\0' in p ==> Normalize(p) == Err(EINVAL)
  {
    assert "/"[1..] == "" && Split("", '/') == [""] && Split("/", '/') == [""] + [""];
    assert ["", ""][1..] == [""] && [""][1..] == [];
    assert Resolve([""], []) == Resolve([], []);
  }

  /** `..` goes up one, and stays at the root. */
  lemma NormalizeUp(p: string)
    requires Normalize(p).Ok?
    ensures var n := Normalize(p).value; Normalize(p + "/..") == Ok(if n == [] then [] else n[..|n| - 1])
  {
    NormalizeContinues(p, "..");
    SplitPiece("..", "", '/');
    assert [".."][1..] == [] && p + "/" + ".." == p + "/..";
  }

  /** `.` and an empty piece stay. */
  lemma NormalizeStays(p: string)
    requires Normalize(p).Ok?
    ensures Normalize(p + "/.") == Normalize(p) && Normalize(p + "/") == Normalize(p)
  {
    NormalizeContinues(p, ".");
    NormalizeContinues(p, "");
    SplitPiece(".", "", '/');
    SplitPiece("", "", '/');
    assert ["."][1..] == [] && [""][1..] == [];
    assert p + "/" + "" == p + "/" && p + "/" + "." == p + "/.";
  }

  /** A name goes down one, unless the path is as deep as it may be. */
  lemma NormalizeDown(p: string, c: string)
    requires Normalize(p).Ok? && IsName(c)
    ensures var n := Normalize(p).value; Normalize(p + "/" + c) == if |n| == 256 then Err(EINVAL) else Ok(n + [c])
  {
    NormalizeIsNormal(p);
    NormalizeContinues(p, c);
    SplitPiece(c, "", '/');
    assert [c][1..] == [];
  }
}
