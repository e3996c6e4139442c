/** In-place normalisation of absolute paths, refined by a stack of components. */
module PathNormalizer {

  // ---- The reference: split, fold over a stack, render

  function NextSlash(path: string, i: nat): (j: nat)
    requires i <= |path|
    ensures i <= j <= |path|
    ensures '/' !in path[i..j]
    ensures j < |path| ==> path[j] == '/'
    decreases |path| - i
  {
    if i == |path| || path[i] == '/' then i else NextSlash(path, i + 1)
  }

  /** The pieces between slashes from position i on; a trailing slash adds no piece. */
  function Components(path: string, i: nat): seq<string>
    requires i <= |path| + 1
    decreases |path| + 1 - i
  {
    if i >= |path| then [] else
      var j := NextSlash(path, i);
      [path[i..j]] + Components(path, j + 1)
  }

  datatype Stack = Escaped | Names(names: seq<string>)

  predicate Ignored(c: string) {
    c == "" || c == "."
  }

  /** An ordinary name, the only kind of component that a normal path keeps. */
  predicate Ordinary(c: string) {
    c != "" && c != "." && c != ".." && '/' !in c
  }

  function Visit(st: Stack, c: string): Stack {
    match st
    case Escaped => Escaped
    case Names(ns) =>
      if Ignored(c) then st
      else if c == ".." then (if ns == [] then Escaped else Names(ns[..|ns| - 1]))
      else Names(ns + [c])
  }

  function Resolve(cs: seq<string>): Stack {
    if cs == [] then Names([]) else Visit(Resolve(cs[..|cs| - 1]), cs[|cs| - 1])
  }

  function Join(ns: seq<string>): string {
    if ns == [] then "" else Join(ns[..|ns| - 1]) + "/" + ns[|ns| - 1]
  }

  function Render(ns: seq<string>): string {
    if ns == [] then "/" else Join(ns)
  }

  // ---- The machine

  /** NotAbsolute is the null answer; Underflow is where the original would step below its buffer. */
  datatype Outcome = NotAbsolute | Underflow | Normal(path: string)

  function Expected(path: string): Outcome {
    if path == "" || path[0] != '/' then NotAbsolute
    else
      match Resolve(Components(path, 0))
      case Escaped => Underflow
      case Names(ns) => Normal(Render(ns))
  }

  lemma {:induction false} JoinLength(ns: seq<string>)
    requires forall k :: 0 <= k < |ns| ==> ns[k] != ""
    ensures |Join(ns)| >= 2 * |ns|
  {
    if ns != [] {
      JoinLength(ns[..|ns| - 1]);
    }
  }

  lemma {:induction false} EscapeIsFinal(cs: seq<string>, ds: seq<string>)
    requires Resolve(cs) == Escaped
    ensures Resolve(cs + ds) == Escaped
  {
    if ds == [] {
      assert cs + ds == cs;
    } else {
      EscapeIsFinal(cs, ds[..|ds| - 1]);
      assert (cs + ds)[..|cs + ds| - 1] == cs + ds[..|ds| - 1];
    }
  }

  ghost predicate AllNamed(ns: seq<string>) {
    forall k :: 0 <= k < |ns| ==> Ordinary(ns[k])
  }

  lemma {:induction false} ResolvedNamesAreOrdinary(cs: seq<string>)
    requires forall k :: 0 <= k < |cs| ==> '/' !in cs[k]
    ensures Resolve(cs).Names? ==> AllNamed(Resolve(cs).names)
  {
    if cs != [] {
      ResolvedNamesAreOrdinary(cs[..|cs| - 1]);
    }
  }

  /** Walks back from the end of the buffer to the last slash. */
  method LastSlash(res: array<char>, rsz: nat, ghost ns: seq<string>) returns (back: nat)
    requires ns != [] && AllNamed(ns) && rsz <= res.Length && res[..rsz] == Join(ns)
    ensures back < rsz && res[..back] == Join(ns[..|ns| - 1])
  {
    ghost var base := |Join(ns[..|ns| - 1])|;
    ghost var last := ns[|ns| - 1];
    assert Join(ns)[base] == '/';
    assert forall k :: base < k < rsz ==> Join(ns)[k] == last[k - base - 1];
    assert res[base] == '/' by {
      assert res[..rsz][base] == '/';
    }
    forall k | base < k < rsz
      ensures res[k] != '/'
    {
      assert res[..rsz][k] == last[k - base - 1];
      assert last[k - base - 1] in last;
    }
    back := rsz - 1;
    while back > 0 && res[back] != '/'
      invariant base <= back < rsz
    {
      back := back - 1;
    }
  }

  /** Copies one name behind a slash; the buffer has room because every name was paid for by its own slash. */
  method AppendName(res: array<char>, rsz: nat, path: string, ptr: nat, next: nat, ghost ns: seq<string>)
    returns (rsz': nat)
    requires ptr < next <= |path| && rsz != 1 && rsz + 1 + (next - ptr) <= res.Length
    requires res[..rsz] == Join(ns)
    modifies res
    ensures rsz' == rsz + 1 + (next - ptr) && res[..rsz'] == Join(ns + [path[ptr..next]])
  {
    ghost var c := path[ptr..next];
    assert (ns + [c])[..|ns|] == ns;
    rsz' := rsz;
    if rsz' != 1 {
      res[rsz'] := '/';
      rsz' := rsz' + 1;
    }
    assert res[..rsz'] == Join(ns) + "/";
    forall k | 0 <= k < next - ptr {
      res[rsz' + k] := path[ptr + k];
    }
    assert res[..rsz' + |c|] == Join(ns) + "/" + c;
    rsz' := rsz' + (next - ptr);
  }

  method FindSlash(path: string, ptr: nat) returns (next: nat)
    requires ptr <= |path|
    ensures next == NextSlash(path, ptr)
  {
    next := ptr;
    while next < |path| && path[next] != '/'
      invariant ptr <= next <= |path|
      invariant NextSlash(path, next) == NextSlash(path, ptr)
    {
      next := next + 1;
    }
  }

  lemma ResolveSnoc(cs: seq<string>, c: string)
    ensures Resolve(cs + [c]) == Visit(Resolve(cs), c)
  {
    assert (cs + [c])[..|cs|] == cs;
  }

  lemma Regroup(done: seq<string>, c: string, rest: seq<string>)
    ensures done + ([c] + rest) == done + [c] + rest
  {}

  lemma OneMoreComponent(path: string, ptr: nat, done: seq<string>)
    requires ptr < |path|
    ensures var next := NextSlash(path, ptr);
            done + Components(path, ptr) == done + [path[ptr..next]] + Components(path, next + 1)
  {
    var next := NextSlash(path, ptr);
    Regroup(done, path[ptr..next], Components(path, next + 1));
  }

  datatype Piece = Up | Skipped | Named

  function PieceOf(c: string): Piece {
    if c == ".." then Up else if Ignored(c) then Skipped else Named
  }

  /** The switch on the length of the piece. */
  method Classify(path: string, ptr: nat, next: nat) returns (k: Piece)
    requires ptr <= next <= |path|
    ensures k == PieceOf(path[ptr..next])
  {
    ghost var c := path[ptr..next];
    var lsz := next - ptr;
    if lsz == 2 && path[ptr] == '.' && path[ptr + 1] == '.' {
      assert c == "..";
      return Up;
    }
    if lsz == 1 && path[ptr] == '.' {
      assert c == ".";
      return Skipped;
    }
    if lsz == 0 {
      assert c == "";
      return Skipped;
    }
    assert lsz == 2 ==> c[0] != '.' || c[1] != '.';
    assert lsz == 1 ==> c[0] != '.';
    return Named;
  }

  /** What the fold does with each kind of piece, and that names stay ordinary. */
  lemma VisitPiece(ns: seq<string>, c: string)
    requires AllNamed(ns) && '/' !in c
    ensures PieceOf(c) == Up ==>
              Visit(Names(ns), c) == (if ns == [] then Escaped else Names(ns[..|ns| - 1]))
    ensures PieceOf(c) == Skipped ==> Visit(Names(ns), c) == Names(ns)
    ensures PieceOf(c) == Named ==> c != "" && Visit(Names(ns), c) == Names(ns + [c])
    ensures Visit(Names(ns), c).Names? ==> AllNamed(Visit(Names(ns), c).names)
  {}

  /** Takes back the last name, or reports that there is none. */
  method GoUp(res: array<char>, rsz: nat, ghost ns: seq<string>) returns (rsz': nat, underflow: bool)
    requires AllNamed(ns) && rsz <= res.Length && res[..rsz] == Join(ns)
    ensures underflow <==> ns == []
    ensures rsz' <= rsz && (ns != [] ==> res[..rsz'] == Join(ns[..|ns| - 1]))
  {
    JoinLength(ns);
    rsz', underflow := rsz, rsz == 0;
    if !underflow {
      rsz' := LastSlash(res, rsz, ns);
    }
  }

  /** Treats the component path[ptr..next] as the fold does, or reports that it would leave the buffer. */
  method Take(res: array<char>, rsz: nat, path: string, ptr: nat, next: nat, ghost ns: seq<string>)
    returns (rsz': nat, underflow: bool, ghost st: Stack)
    requires ptr <= next <= |path| && '/' !in path[ptr..next]
    requires AllNamed(ns) && rsz <= res.Length && res[..rsz] == Join(ns)
    requires ptr < next ==> rsz + 1 + (next - ptr) <= res.Length
    modifies res
    ensures st == Visit(Names(ns), path[ptr..next]) && (underflow <==> st == Escaped)
    ensures st.Names? ==> AllNamed(st.names) && rsz' <= res.Length && res[..rsz'] == Join(st.names)
    ensures rsz' <= rsz || (ptr < next && rsz' == rsz + 1 + (next - ptr))
  {
    st := Visit(Names(ns), path[ptr..next]);
    VisitPiece(ns, path[ptr..next]);
    rsz', underflow := rsz, false;
    var kind := Classify(path, ptr, next);
    match kind {
      case Up =>
        rsz', underflow := GoUp(res, rsz, ns);
      case Named =>
        JoinLength(ns);
        rsz' := AppendName(res, rsz, path, ptr, next, ns);
      case Skipped =>
    }
  }

  /** The text is the rendering of the first components, up to byte ptr. */
  ghost predicate Upto(path: string, ptr: nat, done: seq<string>, ns: seq<string>, text: string) {
    && ptr <= |path| + 1 && Components(path, 0) == done + Components(path, ptr)
    && Resolve(done) == Names(ns) && AllNamed(ns) && text == Join(ns)
  }

  lemma UptoNext(path: string, ptr: nat, done: seq<string>, ns: seq<string>, text: string)
    requires ptr < |path| && Upto(path, ptr, done, ns, text)
    ensures var next := NextSlash(path, ptr);
            var st := Visit(Names(ns), path[ptr..next]);
            if st == Escaped then Resolve(Components(path, 0)) == Escaped
            else AllNamed(st.names) ==>
              Upto(path, next + 1, done + [path[ptr..next]], st.names, Join(st.names))
  {
    var next := NextSlash(path, ptr);
    OneMoreComponent(path, ptr, done);
    ResolveSnoc(done, path[ptr..next]);
    if Visit(Names(ns), path[ptr..next]) == Escaped {
      EscapeIsFinal(done + [path[ptr..next]], Components(path, next + 1));
    }
  }

  lemma UptoEnd(path: string, ptr: nat, done: seq<string>, ns: seq<string>, text: string)
    requires ptr >= |path| > 0 && path[0] == '/' && Upto(path, ptr, done, ns, text)
    ensures Expected(path) == Normal(if text == "" then "/" else text)
  {
    assert Components(path, 0) == done;
    JoinLength(ns);
  }

  /** One round of the loop: finds the end of the next component and takes it. */
  method NextPiece(res: array<char>, rsz: nat, path: string, ptr: nat, ghost done: seq<string>, ghost ns: seq<string>)
    returns (rsz': nat, ptr': nat, underflow: bool, ghost done': seq<string>, ghost ns': seq<string>)
    requires ptr < |path| && path[0] == '/' && res.Length == |path| + 1 && (rsz == 0 || rsz < ptr)
    requires Upto(path, ptr, done, ns, res[..rsz])
    modifies res
    ensures underflow ==> Resolve(Components(path, 0)) == Escaped
    ensures !underflow ==>
              && ptr < ptr' && (rsz' == 0 || rsz' < ptr') && rsz' <= res.Length
              && Upto(path, ptr', done', ns', res[..rsz'])
  {
    UptoNext(path, ptr, done, ns, res[..rsz]);
    var next := FindSlash(path, ptr);
    ghost var st;
    rsz', underflow, st := Take(res, rsz, path, ptr, next, ns);
    ptr' := next + 1;
    done', ns' := done + [path[ptr..next]], if st.Names? then st.names else [];
  }

  method NormalizePath(path: string) returns (r: Outcome)
    ensures r == Expected(path)
  {
    if path == "" || path[0] != '/' {
      return NotAbsolute;
    }
    var end := |path|;
    var res := new char[end + 1];
    var rsz: nat, ptr: nat := 0, 0;
    ghost var done: seq<string>, ns: seq<string> := [], [];
    while ptr < end
      invariant rsz == 0 || rsz < ptr
      invariant rsz <= res.Length && Upto(path, ptr, done, ns, res[..rsz])
      decreases end + 1 - ptr
    {
      var underflow;
      rsz, ptr, underflow, done, ns := NextPiece(res, rsz, path, ptr, done, ns);
      if underflow {
        return Underflow;
      }
    }
    UptoEnd(path, ptr, done, ns, res[..rsz]);
    if rsz == 0 {
      res[0], res[1] := '/', '\0';
      return Normal(res[..1]);
    }
    res[rsz] := '\0';
    return Normal(res[..rsz]);
  }

  // ---- Properties

  function Depth(cs: seq<string>): int {
    if cs == [] then 0
    else
      var c := cs[|cs| - 1];
      Depth(cs[..|cs| - 1]) + (if Ignored(c) then 0 else if c == ".." then -1 else 1)
  }

  ghost predicate Climbs(cs: seq<string>) {
    exists k :: 0 <= k <= |cs| && Depth(cs[..k]) < 0
  }

  /** The fold fails exactly when some prefix goes up more often than down; otherwise it keeps that many names. */
  lemma {:induction false} EscapesIffClimbs(cs: seq<string>)
    ensures Resolve(cs).Names? ==> |Resolve(cs).names| == Depth(cs)
    ensures Resolve(cs) == Escaped <==> Climbs(cs)
  {
    if cs != [] {
      var front := cs[..|cs| - 1];
      EscapesIffClimbs(front);
      assert cs[..|cs|] == cs;
      assert forall k :: 0 <= k <= |front| ==> cs[..k] == front[..k];
    }
  }

  lemma {:induction false} ComponentsHaveNoSlash(path: string, i: nat)
    requires i <= |path| + 1
    ensures forall k :: 0 <= k < |Components(path, i)| ==> '/' !in Components(path, i)[k]
    decreases |path| + 1 - i
  {
    if i < |path| {
      ComponentsHaveNoSlash(path, NextSlash(path, i) + 1);
    }
  }

  lemma {:induction false} NextSlashUnique(path: string, i: nat, j: nat)
    requires i <= j <= |path| && '/' !in path[i..j] && (j == |path| || path[j] == '/')
    ensures NextSlash(path, i) == j
    decreases j - i
  {
    if i < j {
      assert path[i] in path[i..j];
      assert path[i..j][1..] == path[i + 1..j];
      NextSlashUnique(path, i + 1, j);
    }
  }

  lemma {:induction false} JoinFront(ns: seq<string>)
    requires ns != []
    ensures Join(ns) == "/" + ns[0] + Join(ns[1..])
  {
    if |ns| > 1 {
      var f := ns[..|ns| - 1];
      JoinFront(f);
      assert ns[1..][..|ns| - 2] == f[1..];
    }
  }

  lemma FirstPiece(ns: seq<string>, path: string, i: nat)
    requires AllNamed(ns) && ns != [] && i < |path| && path[i..] == Join(ns)
    ensures var j := i + 1 + |ns[0]|;
            && j <= |path| && path[i + 1..j] == ns[0] && path[j..] == Join(ns[1..])
            && NextSlash(path, i + 1) == j
  {
    JoinFront(ns);
    var j := i + 1 + |ns[0]|;
    assert path[i + 1..j] == path[i..][1..1 + |ns[0]|] == ns[0];
    assert path[j..] == path[i..][1 + |ns[0]|..] == Join(ns[1..]);
    if |ns| > 1 {
      JoinFront(ns[1..]);
      assert path[j] == path[j..][0];
    }
    NextSlashUnique(path, i + 1, j);
  }

  /** Splitting undoes joining. */
  lemma {:induction false} SplitJoined(ns: seq<string>, path: string, i: nat)
    requires AllNamed(ns) && ns != [] && i < |path| && path[i..] == Join(ns)
    ensures Components(path, i + 1) == ns
    decreases |ns|
  {
    FirstPiece(ns, path, i);
    var j := i + 1 + |ns[0]|;
    assert Components(path, i + 1) == [ns[0]] + Components(path, j + 1);
    if |ns| > 1 {
      JoinFront(ns[1..]);
      SplitJoined(ns[1..], path, j);
    }
  }

  lemma {:induction false} ResolveNames(ns: seq<string>)
    requires AllNamed(ns)
    ensures Resolve([""] + ns) == Names(ns)
  {
    var cs := [""] + ns;
    if ns == [] {
      assert cs[..0] == [];
    } else {
      ResolveNames(ns[..|ns| - 1]);
      assert cs[..|cs| - 1] == [""] + ns[..|ns| - 1];
    }
  }

  /** A rendered stack of ordinary names is its own normal form. */
  lemma RenderedIsNormal(ns: seq<string>)
    requires AllNamed(ns)
    ensures Expected(Render(ns)) == Normal(Render(ns))
    ensures Resolve(Components(Render(ns), 0)) == Names(ns)
  {
    var path := Render(ns);
    if ns != [] {
      JoinFront(ns);
      assert path[0..] == path;
      SplitJoined(ns, path, 0);
    }
    NextSlashUnique(path, 0, 0);
    assert path[0..0] == "";
    assert Components(path, 0) == [""] + ns;
    ResolveNames(ns);
  }

  /** Every normal form is a rendered stack of ordinary names, and normalising it again changes nothing. */
  lemma NormalizingIsIdempotent(path: string)
    requires Expected(path).Normal?
    ensures exists ns: seq<string> ::
              && (forall k :: 0 <= k < |ns| ==> ns[k] != "" && ns[k] != "." && ns[k] != ".." && '/' !in ns[k])
              && Expected(path) == Normal(Render(ns))
    ensures Expected(Expected(path).path) == Expected(path)
  {
    ComponentsHaveNoSlash(path, 0);
    ResolvedNamesAreOrdinary(Components(path, 0));
    var ns := Resolve(Components(path, 0)).names;
    RenderedIsNormal(ns);
  }

  /** Nothing and a dot lead nowhere, and a name followed by two dots leads back. */
  lemma UpUndoesDown(cs: seq<string>, c: string)
    requires Resolve(cs).Names?
    ensures c == "" || c == "." ==> Resolve(cs + [c]) == Resolve(cs)
    ensures c != "" && c != "." && c != ".." ==> Resolve(cs + [c]) == Names(Resolve(cs).names + [c])
    ensures c != "" && c != "." && c != ".." ==> Resolve(cs + [c] + [".."]) == Resolve(cs)
  {
    assert (cs + [c])[..|cs|] == cs;
    assert (cs + [c] + [".."])[..|cs| + 1] == cs + [c];
  }

  /** An absolute path is normalised exactly when no prefix of it climbs above the root. */
  lemma NormalizesIffNeverClimbs(path: string)
    requires path != "" && path[0] == '/'
    ensures Expected(path).Normal? <==> !Climbs(Components(path, 0))
  {
    EscapesIffClimbs(Components(path, 0));
  }

  lemma OneUpEscapes(cs: seq<string>)
    requires |cs| == 2 && cs[0] == "" && cs[1] == ".."
    ensures Resolve(cs) == Escaped
  {
    var front := cs[..1];
    assert front[..0] == [];
    assert Resolve(front) == Names([]);
  }

  /** The shortest path that leaves the buffer. */
  lemma RootHasNoParent(path: string)
    requires path == "/.."
    ensures Expected(path) == Underflow
  {
    NextSlashUnique(path, 0, 0);
    NextSlashUnique(path, 1, 3);
    var i, j, n := 0, 1, 3;
    assert Components(path, n + 1) == [];
    assert Components(path, j) == [path[j..n]] + Components(path, n + 1);
    assert Components(path, i) == [path[i..i]] + Components(path, j);
    OneUpEscapes(Components(path, i));
  }

  /** Two absolute paths have one normal form exactly when they resolve to one place. */
  lemma SameNormalIffSamePlace(p: string, q: string)
    requires Expected(p).Normal? && Expected(q).Normal?
    ensures Expected(p) == Expected(q) <==> Resolve(Components(p, 0)) == Resolve(Components(q, 0))
  {
    NormalPlace(p);
    NormalPlace(q);
  }

  lemma NormalPlace(p: string)
    requires Expected(p).Normal?
    ensures Resolve(Components(Expected(p).path, 0)) == Resolve(Components(p, 0))
  {
    ComponentsHaveNoSlash(p, 0);
    ResolvedNamesAreOrdinary(Components(p, 0));
    RenderedIsNormal(Resolve(Components(p, 0)).names);
  }
}
