/** The closure of relative imports of a module, and the copy that relocates it. */
module ImportGraph {
  import opened Text
  import opened Paths
  import opened Reachability

  /** The regular files with the import specifiers found in each. */
  type Files = map<Path, seq<string>>

  const SOURCE_FILE_EXTENSIONS := [".ts", ".tsx", ".mts", ".cts", ".js", ".jsx", ".mjs", ".cjs"]

  // ---------- resolving one specifier ----------

  /** The index of the last dot, or -1. */
  function LastDot(name: string): (d: int)
    ensures -1 <= d < |name|
  {
    if name == "" then -1
    else if name[|name| - 1] == '.' then |name| - 1
    else LastDot(name[..|name| - 1])
  }

  /** The last segment without its extension; `path.extname` is empty for names without
      a dot and for dot files. */
  function SplitExtension(name: string): (string, string) {
    var d := LastDot(name);
    if d <= 0 then (name, "") else (name[..d], name[d..])
  }

  function LastSegment(p: Path): string {
    if p == [] then "" else p[|p| - 1]
  }

  function Siblings(dir: Path, stem: string, extensions: seq<string>): seq<Path> {
    if extensions == [] then []
    else [dir + [stem + extensions[0]]] + Siblings(dir, stem, extensions[1..])
  }

  function FilesAndIndexes(dir: Path, name: string, base: Path, extensions: seq<string>): seq<Path> {
    if extensions == [] then []
    else [dir + [name + extensions[0]], base + ["index" + extensions[0]]] + FilesAndIndexes(dir, name, base, extensions[1..])
  }

  /** `resolveImportCandidates`. Its set drops later repetitions, which the search for
      the first existing candidate does not see. */
  function Candidates(base: Path): seq<Path> {
    var (stem, extension) := SplitExtension(LastSegment(base));
    [base] + if extension != "" then Siblings(Dirname(base), stem, SOURCE_FILE_EXTENSIONS)
             else FilesAndIndexes(Dirname(base), LastSegment(base), base, SOURCE_FILE_EXTENSIONS)
  }

  function FirstFile(files: Files, candidates: seq<Path>): Option<Path> {
    if candidates == [] then None
    else if candidates[0] in files then Some(candidates[0])
    else FirstFile(files, candidates[1..])
  }

  /** The path that the specifier names, before extensions are tried. */
  function Base(from: Path, specifier: string): Path {
    Walk(Dirname(from), Split(specifier, '/'))
  }

  /** `resolveRelativeImportPath`. */
  function Resolve(files: Files, from: Path, specifier: string): Option<Path> {
    FirstFile(files, Candidates(Base(from, specifier)))
  }

  lemma {:induction false} FirstFileIsFile(files: Files, candidates: seq<Path>)
    ensures var r := FirstFile(files, candidates); r.Some? ==> r.value in files && r.value in candidates
  {
    if candidates != [] && candidates[0] !in files {
      FirstFileIsFile(files, candidates[1..]);
    }
  }

  /** The first candidate that exists wins: the named path itself if it is a file, then
      the others in order; nothing resolves only if no candidate exists. */
  lemma {:induction false} FirstFileWins(files: Files, candidates: seq<Path>, i: nat)
    requires i < |candidates|
    ensures candidates[i] in files && (forall j | 0 <= j < i :: candidates[j] !in files) ==>
              FirstFile(files, candidates) == Some(candidates[i])
    ensures FirstFile(files, candidates).None? ==> candidates[i] !in files
  {
    if i > 0 {
      FirstFileWins(files, candidates[1..], i - 1);
    }
  }

  // ---------- the closure ----------

  predicate IsRelative(specifier: string) {
    StartsWith(specifier, ".")
  }

  function ResolvedAll(files: Files, from: Path, specifiers: seq<string>): seq<Path> {
    if specifiers == [] then []
    else
      var init := ResolvedAll(files, from, specifiers[..|specifiers| - 1]);
      var last := specifiers[|specifiers| - 1];
      if !IsRelative(last) then init
      else
        match Resolve(files, from, last)
        case None => init
        case Some(t) => init + [t]
  }

  /** The files that a file imports by a relative specifier that resolves. */
  function Imports(files: Files): Path -> seq<Path> {
    (p: Path) => if p in files then ResolvedAll(files, p, files[p]) else []
  }

  lemma {:induction false} ResolvedLaw(files: Files, from: Path, specifiers: seq<string>)
    ensures forall t :: t in ResolvedAll(files, from, specifiers) <==>
              exists s :: s in specifiers && IsRelative(s) && Resolve(files, from, s) == Some(t)
    ensures forall t <- ResolvedAll(files, from, specifiers) :: t in files
  {
    if specifiers != [] {
      var n := |specifiers| - 1;
      ResolvedLaw(files, from, specifiers[..n]);
      assert specifiers == specifiers[..n] + [specifiers[n]];
      FirstFileIsFile(files, Candidates(Base(from, specifiers[n])));
    }
  }

  method PushResolved(files: Files, from: Path, queue: seq<Path>) returns (r: seq<Path>)
    requires from in files
    ensures r == queue + Imports(files)(from)
  {
    var specifiers := files[from];
    r := queue;
    for i := 0 to |specifiers|
      invariant r == queue + ResolvedAll(files, from, specifiers[..i])
    {
      assert specifiers[..i + 1][..i] == specifiers[..i];
      if !IsRelative(specifiers[i]) {
        continue;
      }
      var resolved := Resolve(files, from, specifiers[i]);
      if resolved.Some? {
        r := r + [resolved.value];
      }
    }
    assert specifiers[..|specifiers|] == specifiers;
  }

  /** `collectRelativeImportGraph`: reading a missing entry throws; otherwise the result
      is the least set with the entry that is closed under resolved relative imports. */
  method CollectRelativeImportGraph(files: Files, entry: Path) returns (r: Result<set<Path>>)
    ensures r.Thrown? <==> entry !in files
    ensures r.Ok? ==> Least(r.value, entry, Imports(files)) && r.value <= files.Keys
  {
    var discovered: set<Path>, queue := {}, [entry];
    WalkStarts(entry, Imports(files));
    while |queue| > 0
      invariant Walking(discovered, queue, entry, Imports(files))
      invariant discovered <= files.Keys
      invariant entry in files ==> forall p <- queue :: p in files
      invariant entry !in files ==> queue == [entry] && discovered == {}
      decreases files.Keys - discovered, |queue|
    {
      var currentPath := queue[|queue| - 1];
      if currentPath in discovered {
        WalkSkips(discovered, queue, entry, Imports(files));
        queue := queue[..|queue| - 1];
        continue;
      }
      if currentPath !in files {
        return Thrown("ENOENT");
      }
      WalkVisits(discovered, queue, entry, Imports(files));
      ResolvedLaw(files, currentPath, files[currentPath]);
      queue := queue[..|queue| - 1];
      discovered := discovered + {currentPath};
      queue := PushResolved(files, currentPath, queue);
    }
    WalkEnds(discovered, entry, Imports(files));
    r := Ok(discovered);
  }

  // ---------- relocation ----------

  /** Where a path below `root` is copied. */
  function Image(root: Path, iso: Path, p: Path): Path
    requires root <= p
  {
    iso + p[|root|..]
  }

  /** The walk never climbs above `root` on its way. */
  predicate Inside(root: Path, dir: Path, parts: seq<string>)
    decreases |parts|
  {
    root <= dir &&
    (parts != [] ==> (parts[0] == ".." ==> |dir| > |root|) && Inside(root, StepDir(dir, parts[0]), parts[1..]))
  }

  lemma {:induction false} WalkImage(root: Path, iso: Path, dir: Path, parts: seq<string>)
    requires Inside(root, dir, parts)
    ensures root <= Walk(dir, parts)
    ensures Walk(Image(root, iso, dir), parts) == Image(root, iso, Walk(dir, parts))
    decreases |parts|
  {
    if parts != [] {
      var next := StepDir(dir, parts[0]);
      assert StepDir(Image(root, iso, dir), parts[0]) == Image(root, iso, next);
      WalkImage(root, iso, next, parts[1..]);
    }
  }

  /** The walk after leaving the copied tree: both walks have the same names on top of a
      proper part of the root or of its copy. */
  ghost predicate Astray(root: Path, iso: Path, dir: Path, dir': Path, j: nat, j': nat, names: Path) {
    && j <= |root| && j' <= |iso| && (j < |root| || j' < |iso|)
    && dir == root[..j] + names && dir' == iso[..j'] + names
  }

  lemma ClimbNames(top: Path, j: nat, names: Path)
    requires j <= |top| && names != []
    ensures Dirname(top[..j] + names) == top[..j] + names[..|names| - 1]
  {
  }

  lemma ClimbTop(top: Path, j: nat)
    requires j <= |top|
    ensures Dirname(top[..j] + []) == top[..if j == 0 then 0 else j - 1] + []
  {
    assert top[..j] + [] == top[..j];
  }

  lemma {:induction false} AstrayNeverReturns(root: Path, iso: Path, dir: Path, dir': Path, j: nat, j': nat, names: Path,
                                              parts: seq<string>)
    requires Astray(root, iso, dir, dir', j, j', names)
    requires iso != [] && LastSegment(root) != LastSegment(iso)
    ensures root <= Walk(dir, parts) ==> Walk(dir', parts) != Image(root, iso, Walk(dir, parts))
    decreases |parts|
  {
    if parts == [] {
      if root <= dir && dir' == Image(root, iso, dir) {
        SameTop(root, iso, j, j', names);
      }
    } else {
      var next, next' := StepDir(dir, parts[0]), StepDir(dir', parts[0]);
      if parts[0] == "" || parts[0] == "." {
        AstrayNeverReturns(root, iso, next, next', j, j', names, parts[1..]);
      } else if parts[0] != ".." {
        assert next == root[..j] + (names + [parts[0]]) && next' == iso[..j'] + (names + [parts[0]]);
        AstrayNeverReturns(root, iso, next, next', j, j', names + [parts[0]], parts[1..]);
      } else if names != [] {
        var rest := names[..|names| - 1];
        ClimbNames(root, j, names);
        ClimbNames(iso, j', names);
        AstrayNeverReturns(root, iso, next, next', j, j', rest, parts[1..]);
      } else {
        var i, i' := if j == 0 then 0 else j - 1, if j' == 0 then 0 else j' - 1;
        ClimbTop(root, j);
        ClimbTop(iso, j');
        AstrayNeverReturns(root, iso, next, next', i, i', [], parts[1..]);
      }
    }
  }

  lemma SameTop(root: Path, iso: Path, j: nat, j': nat, names: Path)
    requires j <= |root| && j' <= |iso| && iso != []
    requires root <= root[..j] + names
    requires iso[..j'] + names == Image(root, iso, root[..j] + names)
    ensures (j == |root| && j' == |iso|) || LastSegment(root) == LastSegment(iso)
  {
    var dir, dir' := root[..j] + names, iso[..j'] + names;
    assert |dir'| == |iso| + |dir| - |root|;
    assert j - j' == |root| - |iso|;
    if j < |root| {
      assert root[|root| - 1] == dir[|root| - 1] == names[|root| - 1 - j];
      assert iso[|iso| - 1] == dir'[|iso| - 1] == names[|iso| - 1 - j'];
    }
  }

  /** The specifier names the copied path exactly when its walk stays inside the copied
      tree: climbing above the root and coming back by name does not survive the move. */
  lemma {:induction false} BaseRelocates(root: Path, iso: Path, dir: Path, parts: seq<string>)
    requires root <= dir && iso != [] && LastSegment(root) != LastSegment(iso)
    requires root <= Walk(dir, parts)
    ensures Walk(Image(root, iso, dir), parts) == Image(root, iso, Walk(dir, parts)) <==> Inside(root, dir, parts)
    decreases |parts|
  {
    if Inside(root, dir, parts) {
      WalkImage(root, iso, dir, parts);
    } else {
      var next, next' := StepDir(dir, parts[0]), StepDir(Image(root, iso, dir), parts[0]);
      if parts[0] == ".." && |dir| == |root| {
        assert dir == root && Image(root, iso, dir) == iso;
        var j := if root == [] then 0 else |root| - 1;
        assert next == root[..j] + [] && next' == iso[..|iso| - 1] + [];
        AstrayNeverReturns(root, iso, next, next', j, |iso| - 1, [], parts[1..]);
      } else {
        assert next' == Image(root, iso, next);
        BaseRelocates(root, iso, next, parts[1..]);
      }
    }
  }

  /** Below the new root the copy holds exactly the images of the collected files. */
  ghost predicate Copied(files: Files, collected: set<Path>, root: Path, iso: Path, copy: Files) {
    && (forall p <- collected :: root <= p && p in files && Image(root, iso, p) in copy && copy[Image(root, iso, p)] == files[p])
    && (forall q <- copy | iso <= q :: exists p :: p in collected && q == Image(root, iso, p))
  }

  lemma InCopy(files: Files, collected: set<Path>, root: Path, iso: Path, copy: Files, p: Path)
    requires Copied(files, collected, root, iso, copy) && root <= p
    ensures Image(root, iso, p) in copy <==> p in collected
  {
    if Image(root, iso, p) in copy {
      assert iso <= Image(root, iso, p);
      var p' :| p' in collected && Image(root, iso, p) == Image(root, iso, p');
      assert p == root + Image(root, iso, p)[|iso|..] && p' == root + Image(root, iso, p')[|iso|..];
    }
  }

  predicate AllUnder(root: Path, ps: seq<Path>) {
    forall i | 0 <= i < |ps| :: root <= ps[i]
  }

  function Images(root: Path, iso: Path, ps: seq<Path>): seq<Path>
    requires AllUnder(root, ps)
  {
    seq(|ps|, i requires 0 <= i < |ps| => Image(root, iso, ps[i]))
  }

  lemma {:induction false} SiblingsImage(root: Path, iso: Path, dir: Path, stem: string, extensions: seq<string>)
    requires root <= dir
    ensures AllUnder(root, Siblings(dir, stem, extensions))
    ensures Siblings(Image(root, iso, dir), stem, extensions) == Images(root, iso, Siblings(dir, stem, extensions))
  {
    if extensions != [] {
      SiblingsImage(root, iso, dir, stem, extensions[1..]);
      var c := dir + [stem + extensions[0]];
      assert Image(root, iso, c) == Image(root, iso, dir) + [stem + extensions[0]];
      assert Siblings(dir, stem, extensions) == [c] + Siblings(dir, stem, extensions[1..]);
    }
  }

  lemma {:induction false} IndexesImage(root: Path, iso: Path, dir: Path, name: string, base: Path, extensions: seq<string>)
    requires root <= dir && root <= base
    ensures AllUnder(root, FilesAndIndexes(dir, name, base, extensions))
    ensures FilesAndIndexes(Image(root, iso, dir), name, Image(root, iso, base), extensions)
         == Images(root, iso, FilesAndIndexes(dir, name, base, extensions))
  {
    if extensions != [] {
      IndexesImage(root, iso, dir, name, base, extensions[1..]);
      var c, d := dir + [name + extensions[0]], base + ["index" + extensions[0]];
      assert Image(root, iso, c) == Image(root, iso, dir) + [name + extensions[0]];
      assert Image(root, iso, d) == Image(root, iso, base) + ["index" + extensions[0]];
      assert FilesAndIndexes(dir, name, base, extensions) == [c, d] + FilesAndIndexes(dir, name, base, extensions[1..]);
    }
  }

  lemma CandidatesImage(root: Path, iso: Path, base: Path)
    requires root <= base && |base| > |root|
    ensures AllUnder(root, Candidates(base))
    ensures Candidates(Image(root, iso, base)) == Images(root, iso, Candidates(base))
  {
    var b, dir := Image(root, iso, base), Dirname(base);
    assert LastSegment(b) == LastSegment(base) && Dirname(b) == Image(root, iso, dir);
    var (stem, extension) := SplitExtension(LastSegment(base));
    SiblingsImage(root, iso, dir, stem, SOURCE_FILE_EXTENSIONS);
    IndexesImage(root, iso, dir, LastSegment(base), base, SOURCE_FILE_EXTENSIONS);
  }

  lemma {:induction false} FirstFileImage(files: Files, collected: set<Path>, root: Path, iso: Path, copy: Files,
                                          candidates: seq<Path>)
    requires Copied(files, collected, root, iso, copy)
    requires AllUnder(root, candidates)
    requires var t := FirstFile(files, candidates); t.Some? ==> t.value in collected
    ensures var t := FirstFile(files, candidates);
            && (t.Some? ==> root <= t.value)
            && FirstFile(copy, Images(root, iso, candidates)) == if t.Some? then Some(Image(root, iso, t.value)) else None
  {
    if candidates != [] {
      InCopy(files, collected, root, iso, copy, candidates[0]);
      assert Images(root, iso, candidates)[1..] == Images(root, iso, candidates[1..]);
      if candidates[0] !in files {
        FirstFileImage(files, collected, root, iso, copy, candidates[1..]);
      }
    }
  }

  /** The specifier stays inside the copied tree and names a path properly below its root,
      so that all candidates lie in the tree. */
  predicate Contained(root: Path, from: Path, specifier: string) {
    && root <= from && |from| > |root|
    && Inside(root, Dirname(from), Split(specifier, '/'))
    && |Base(from, specifier)| > |root|
  }

  lemma BaseImage(root: Path, iso: Path, from: Path, specifier: string)
    requires Contained(root, from, specifier)
    ensures root <= Base(from, specifier)
    ensures Base(Image(root, iso, from), specifier) == Image(root, iso, Base(from, specifier))
  {
    assert Dirname(Image(root, iso, from)) == Image(root, iso, Dirname(from));
    WalkImage(root, iso, Dirname(from), Split(specifier, '/'));
  }

  lemma ResolvedIsCollected(files: Files, collected: set<Path>, from: Path, specifier: string)
    requires Closed(collected, Imports(files))
    requires from in collected && from in files && specifier in files[from] && IsRelative(specifier)
    ensures var t := Resolve(files, from, specifier); t.Some? ==> t.value in collected
  {
    ResolvedLaw(files, from, files[from]);
    var t := Resolve(files, from, specifier);
    if t.Some? {
      assert t.value in Imports(files)(from);
    }
  }

  /** A contained specifier of a collected file resolves in the copy to the image of what
      it resolves to in the original, or to nothing if it did not resolve. */
  lemma ResolveRelocates(files: Files, collected: set<Path>, root: Path, iso: Path, copy: Files, from: Path, specifier: string)
    requires Copied(files, collected, root, iso, copy) && Closed(collected, Imports(files))
    requires from in collected && specifier in files[from] && IsRelative(specifier)
    requires Contained(root, from, specifier)
    ensures var t := Resolve(files, from, specifier);
            && (t.Some? ==> root <= t.value)
            && Resolve(copy, Image(root, iso, from), specifier) == if t.Some? then Some(Image(root, iso, t.value)) else None
  {
    BaseImage(root, iso, from, specifier);
    CandidatesImage(root, iso, Base(from, specifier));
    ResolvedIsCollected(files, collected, from, specifier);
    FirstFileImage(files, collected, root, iso, copy, Candidates(Base(from, specifier)));
  }

  // ---------- exactly which specifiers survive the move ----------

  predicate EndsWith(name: string, end: string) {
    |name| >= |end| && name[|name| - |end|..] == end
  }

  /** The name of the fresh directory is not one that the specifier could hit: it is no part
      of it and does not look like a source file. */
  predicate FreshFor(iso: Path, specifier: string) {
    && iso != [] && LastSegment(iso) !in Split(specifier, '/')
    && forall e <- SOURCE_FILE_EXTENSIONS :: !EndsWith(LastSegment(iso), e)
  }

  /** Outside the fresh directory, a walk that does not name it never comes back. */
  lemma {:induction false} NeverBack(iso: Path, dir: Path, parts: seq<string>)
    requires iso != [] && !(iso <= dir) && LastSegment(iso) !in parts
    ensures !(iso <= Walk(dir, parts))
    decreases |parts|
  {
    if parts != [] {
      var next := StepDir(dir, parts[0]);
      assert parts[0] in parts && forall p <- parts[1..] :: p in parts;
      assert next == dir + [parts[0]] || next <= dir;
      NeverBack(iso, next, parts[1..]);
    }
  }

  /** A walk that climbs above the root ends outside the copy. */
  lemma {:induction false} WalkLeaves(root: Path, iso: Path, dir: Path, parts: seq<string>)
    requires root <= dir && !Inside(root, dir, parts)
    requires iso != [] && LastSegment(iso) !in parts
    ensures !(iso <= Walk(Image(root, iso, dir), parts))
    decreases |parts|
  {
    var next, next' := StepDir(dir, parts[0]), StepDir(Image(root, iso, dir), parts[0]);
    assert forall p <- parts[1..] :: p in parts;
    if parts[0] == ".." && |dir| == |root| {
      assert next' == iso[..|iso| - 1];
      NeverBack(iso, next', parts[1..]);
    } else {
      assert next' == Image(root, iso, next);
      WalkLeaves(root, iso, next, parts[1..]);
    }
  }

  lemma {:induction false} SiblingsOf(dir: Path, stem: string, extensions: seq<string>)
    ensures forall c <- Siblings(dir, stem, extensions) :: exists e :: e in extensions && c == dir + [stem + e]
  {
    if extensions != [] {
      SiblingsOf(dir, stem, extensions[1..]);
      assert forall e <- extensions[1..] :: e in extensions;
    }
  }

  lemma {:induction false} IndexesOf(dir: Path, name: string, base: Path, extensions: seq<string>)
    ensures forall c <- FilesAndIndexes(dir, name, base, extensions) ::
              exists e :: e in extensions && (c == dir + [name + e] || c == base + ["index" + e])
  {
    if extensions != [] {
      IndexesOf(dir, name, base, extensions[1..]);
      assert forall e <- extensions[1..] :: e in extensions;
    }
  }

  /** A candidate is the named path, or ends in a source extension next to or below it. */
  lemma CandidateShape(base: Path, c: Path)
    requires c in Candidates(base)
    ensures c == base || exists dir, name, e ::
              (dir == Dirname(base) || dir == base) && e in SOURCE_FILE_EXTENSIONS && c == dir + [name + e]
  {
    var (stem, extension) := SplitExtension(LastSegment(base));
    SiblingsOf(Dirname(base), stem, SOURCE_FILE_EXTENSIONS);
    IndexesOf(Dirname(base), LastSegment(base), base, SOURCE_FILE_EXTENSIONS);
  }

  lemma NoCandidateInside(iso: Path, base: Path, c: Path)
    requires iso != [] && !(iso <= base) && c in Candidates(base)
    requires forall e <- SOURCE_FILE_EXTENSIONS :: !EndsWith(LastSegment(iso), e)
    ensures !(iso <= c)
  {
    hide Candidates;
    CandidateShape(base, c);
  }

  /** A target strictly inside the root is named by a path inside the root, or at it. */
  lemma TargetNeedsBase(root: Path, base: Path, t: Path)
    requires t in Candidates(base) && root <= t && t != root
    ensures root <= base
  {
    hide Candidates;
    CandidateShape(base, t);
    if t != base {
      var dir, name, e :| (dir == Dirname(base) || dir == base) && e in SOURCE_FILE_EXTENSIONS && t == dir + [name + e];
      assert root <= dir && dir <= base;
    }
  }

  /** A specifier that climbs above the root resolves to nothing inside the copy. */
  lemma ResolvesOutside(root: Path, iso: Path, copy: Files, from: Path, specifier: string)
    requires root <= from && from != root && FreshFor(iso, specifier)
    requires !Inside(root, Dirname(from), Split(specifier, '/'))
    ensures var r := Resolve(copy, Image(root, iso, from), specifier); r.Some? ==> !(iso <= r.value)
  {
    hide Candidates, Walk, Inside;
    var from' := Image(root, iso, from);
    assert Dirname(from') == Image(root, iso, Dirname(from));
    WalkLeaves(root, iso, Dirname(from), Split(specifier, '/'));
    var r := Resolve(copy, from', specifier);
    FirstFileIsFile(copy, Candidates(Base(from', specifier)));
    if r.Some? {
      NoCandidateInside(iso, Base(from', specifier), r.value);
    }
  }

  /** The specifier keeps its target: it resolves in the copy to the image of that. */
  predicate KeepsTarget(files: Files, root: Path, iso: Path, copy: Files, from: Path, specifier: string)
    requires root <= from
  {
    var t := Resolve(files, from, specifier);
    t.Some? && root <= t.value && Resolve(copy, Image(root, iso, from), specifier) == Some(Image(root, iso, t.value))
  }

  /** A relative specifier of a collected file that resolves. */
  predicate Followed(files: Files, collected: set<Path>, p: Path, s: string) {
    p in collected && p in files && s in files[p] && IsRelative(s) && Resolve(files, p, s).Some?
  }

  // ---------- specifiers that name the root itself ----------

  /** No source file beside the fresh directory bears its name. */
  predicate NothingBeside(iso: Path, copy: Files) {
    forall e <- SOURCE_FILE_EXTENSIONS :: Dirname(iso) + [LastSegment(iso) + e] !in copy
  }

  predicate NoExtension(p: Path) {
    SplitExtension(LastSegment(p)).1 == ""
  }

  lemma IndexIsNoExtension(e: string)
    ensures "index" + e !in SOURCE_FILE_EXTENSIONS
  {
    assert forall x <- SOURCE_FILE_EXTENSIONS :: |x| <= 4;
    assert |"index" + e| >= 5;
  }

  /** A directory with nothing beside it resolves to an index file, if at all. */
  lemma FindsIndexes(copy: Files, iso: Path, extensions: seq<string>)
    requires forall e <- extensions :: Dirname(iso) + [LastSegment(iso) + e] !in copy
    ensures var r := FirstFile(copy, FilesAndIndexes(Dirname(iso), LastSegment(iso), iso, extensions));
            r.Some? ==> LastSegment(r.value) !in SOURCE_FILE_EXTENSIONS
  {
    hide FilesAndIndexes, FirstFile;
    var candidates := FilesAndIndexes(Dirname(iso), LastSegment(iso), iso, extensions);
    var r := FirstFile(copy, candidates);
    FirstFileIsFile(copy, candidates);
    IndexesOf(Dirname(iso), LastSegment(iso), iso, extensions);
    if r.Some? {
      var e :| e in extensions && r.value == iso + ["index" + e];
      IndexIsNoExtension(e);
    }
  }

  /** A file beside the root that bears its name lies under it only at the top of the file
      system. */
  lemma BesideIsOutside(root: Path, e: string)
    requires e in SOURCE_FILE_EXTENSIONS && root <= Dirname(root) + [LastSegment(root) + e]
    ensures LastSegment(Dirname(root) + [LastSegment(root) + e]) in SOURCE_FILE_EXTENSIONS
  {
    assert e != "";
    if root == [] {
      assert LastSegment(root) + e == e;
    } else {
      assert |LastSegment(root) + e| > |LastSegment(root)|;
    }
  }

  /** An index file of the root is found in the copy at its image. */
  lemma {:induction false} IndexRelocates(files: Files, collected: set<Path>, root: Path, iso: Path, copy: Files,
                                          extensions: seq<string>)
    requires Copied(files, collected, root, iso, copy)
    requires forall e <- extensions :: e in SOURCE_FILE_EXTENSIONS && Dirname(iso) + [LastSegment(iso) + e] !in copy
    requires var t := FirstFile(files, FilesAndIndexes(Dirname(root), LastSegment(root), root, extensions));
             t.Some? && t.value in collected && LastSegment(t.value) !in SOURCE_FILE_EXTENSIONS
    ensures var t := FirstFile(files, FilesAndIndexes(Dirname(root), LastSegment(root), root, extensions));
            && root <= t.value
            && FirstFile(copy, FilesAndIndexes(Dirname(iso), LastSegment(iso), iso, extensions))
               == Some(Image(root, iso, t.value))
  {
    hide SOURCE_FILE_EXTENSIONS;
    var e, rest := extensions[0], extensions[1..];
    var beside, index := Dirname(root) + [LastSegment(root) + e], root + ["index" + e];
    var beside', index' := Dirname(iso) + [LastSegment(iso) + e], iso + ["index" + e];
    TwoCandidates(files, beside, index, FilesAndIndexes(Dirname(root), LastSegment(root), root, rest));
    TwoCandidates(copy, beside', index', FilesAndIndexes(Dirname(iso), LastSegment(iso), iso, rest));
    InCopy(files, collected, root, iso, copy, index);
    assert e in extensions && (forall x <- rest :: x in extensions) && Image(root, iso, index) == index';
    if beside in files {
      BesideIsOutside(root, e);
    } else if index !in files {
      IndexRelocates(files, collected, root, iso, copy, rest);
    }
  }

  lemma TwoCandidates(files: Files, c: Path, d: Path, rest: seq<Path>)
    ensures FirstFile(files, [c, d] + rest)
         == if c in files then Some(c) else if d in files then Some(d) else FirstFile(files, rest)
  {
    var all := [c, d] + rest;
    assert all[1..] == [d] + rest && ([d] + rest)[1..] == rest;
  }

  /** What the root and the fresh directory are resolved as, neither being a file. */
  lemma DirectoryResolves(files: Files, dir: Path)
    requires dir !in files
    ensures NoExtension(dir) ==>
              FirstFile(files, Candidates(dir))
              == FirstFile(files, FilesAndIndexes(Dirname(dir), LastSegment(dir), dir, SOURCE_FILE_EXTENSIONS))
    ensures !NoExtension(dir) ==>
              var r := FirstFile(files, Candidates(dir)); dir != [] && (r.Some? ==> |r.value| == |dir|)
  {
    var (stem, extension) := SplitExtension(LastSegment(dir));
    if NoExtension(dir) {
      var rest := FilesAndIndexes(Dirname(dir), LastSegment(dir), dir, SOURCE_FILE_EXTENSIONS);
      assert Candidates(dir) == [dir] + rest && ([dir] + rest)[1..] == rest;
    } else {
      FirstFileIsFile(files, Candidates(dir));
      SiblingsOf(Dirname(dir), stem, SOURCE_FILE_EXTENSIONS);
    }
  }

  /** The specifier leads to the root itself: its target is an index file there, which is
      found in the copy exactly if the new name has no extension. */
  lemma RootRelocates(files: Files, collected: set<Path>, root: Path, iso: Path, copy: Files, t: Path)
    requires Copied(files, collected, root, iso, copy) && root !in collected && iso != [] && NothingBeside(iso, copy)
    requires FirstFile(files, Candidates(root)) == Some(t) && t in collected
    ensures root <= t
    ensures FirstFile(copy, Candidates(iso)) == Some(Image(root, iso, t))
            <==> NoExtension(iso) && LastSegment(t) !in SOURCE_FILE_EXTENSIONS
  {
    hide Candidates, FilesAndIndexes, NoExtension, SOURCE_FILE_EXTENSIONS;
    FirstFileIsFile(files, Candidates(root));
    assert root !in files by {
      FileItself(files, root);
    }
    InCopy(files, collected, root, iso, copy, root);
    assert Image(root, iso, root) == iso;
    DirectoryResolves(files, root);
    DirectoryResolves(copy, iso);
    assert |t| > |root| && NoExtension(root);
    assert LastSegment(Image(root, iso, t)) == LastSegment(t) && |Image(root, iso, t)| > |iso|;
    if NoExtension(iso) {
      FindsIndexes(copy, iso, SOURCE_FILE_EXTENSIONS);
      if LastSegment(t) !in SOURCE_FILE_EXTENSIONS {
        IndexRelocates(files, collected, root, iso, copy, SOURCE_FILE_EXTENSIONS);
      }
    }
  }

  /** A path that is a file resolves to itself. */
  lemma FileItself(files: Files, p: Path)
    ensures p in files ==> FirstFile(files, Candidates(p)) == Some(p)
  {
  }

  // ---------- all specifiers ----------

  /** When a specifier with target `t` survives the move: it never climbs above the root on
      its way, and if it leads to the root itself, whose index file it then means, the name
      of the fresh directory has no extension. (At the top of the file system it could also
      mean a file with nothing but an extension for its name.) */
  predicate Survives(root: Path, iso: Path, from: Path, specifier: string, t: Path) {
    && Inside(root, Dirname(from), Split(specifier, '/'))
    && (Base(from, specifier) == root ==> NoExtension(iso) && LastSegment(t) !in SOURCE_FILE_EXTENSIONS)
  }

  lemma CollectedBelow(files: Files, collected: set<Path>, root: Path, iso: Path, copy: Files, from: Path)
    requires Copied(files, collected, root, iso, copy) && root !in collected && from in collected
    ensures root <= from && |from| > |root| && root <= Dirname(from)
    ensures Dirname(Image(root, iso, from)) == Image(root, iso, Dirname(from))
  {
    assert from != root;
  }

  lemma KeepsIfInside(files: Files, collected: set<Path>, root: Path, iso: Path, copy: Files, from: Path, specifier: string)
    requires Copied(files, collected, root, iso, copy) && Closed(collected, Imports(files))
    requires root !in collected && Followed(files, collected, from, specifier) && Base(from, specifier) != root
    requires Inside(root, Dirname(from), Split(specifier, '/'))
    ensures KeepsTarget(files, root, iso, copy, from, specifier)
  {
    hide Candidates, Walk, Inside, Resolve, Split, Copied, Closed, Imports;
    CollectedBelow(files, collected, root, iso, copy, from);
    WalkImage(root, iso, Dirname(from), Split(specifier, '/'));
    assert Contained(root, from, specifier);
    ResolveRelocates(files, collected, root, iso, copy, from, specifier);
  }

  lemma LosesIfOutside(files: Files, collected: set<Path>, root: Path, iso: Path, copy: Files, from: Path, specifier: string)
    requires Copied(files, collected, root, iso, copy) && root !in collected && from in collected && FreshFor(iso, specifier)
    requires !Inside(root, Dirname(from), Split(specifier, '/'))
    ensures !KeepsTarget(files, root, iso, copy, from, specifier)
  {
    hide Candidates, Walk, Inside, FreshFor, Resolve, Split, Copied;
    CollectedBelow(files, collected, root, iso, copy, from);
    ResolvesOutside(root, iso, copy, from, specifier);
    var t := Resolve(files, from, specifier);
    if t.Some? && root <= t.value {
      assert iso <= Image(root, iso, t.value);
    }
  }

  lemma KeepsAtRoot(files: Files, collected: set<Path>, root: Path, iso: Path, copy: Files, from: Path, specifier: string)
    requires Copied(files, collected, root, iso, copy) && Closed(collected, Imports(files))
    requires root !in collected && Followed(files, collected, from, specifier) && Base(from, specifier) == root
    requires iso != [] && NothingBeside(iso, copy) && Inside(root, Dirname(from), Split(specifier, '/'))
    ensures var t := Resolve(files, from, specifier).value;
            KeepsTarget(files, root, iso, copy, from, specifier)
            <==> NoExtension(iso) && LastSegment(t) !in SOURCE_FILE_EXTENSIONS
  {
    hide Candidates, Walk, Inside, NothingBeside, NoExtension, Split, SOURCE_FILE_EXTENSIONS, Copied, Closed, Imports;
    ResolvedIsCollected(files, collected, from, specifier);
    CollectedBelow(files, collected, root, iso, copy, from);
    assert Image(root, iso, root) == iso;
    WalkImage(root, iso, Dirname(from), Split(specifier, '/'));
    RootRelocates(files, collected, root, iso, copy, Resolve(files, from, specifier).value);
  }

  /** The exact condition: in a copy under a fresh name, a specifier that resolves keeps its
      target if and only if it survives. */
  lemma ResolveRelocatesExactly(files: Files, collected: set<Path>, root: Path, iso: Path, copy: Files, from: Path,
                                specifier: string)
    requires Copied(files, collected, root, iso, copy) && Closed(collected, Imports(files))
    requires root !in collected && Followed(files, collected, from, specifier)
    requires FreshFor(iso, specifier) && NothingBeside(iso, copy)
    ensures KeepsTarget(files, root, iso, copy, from, specifier)
            <==> Survives(root, iso, from, specifier, Resolve(files, from, specifier).value)
  {
    hide KeepsTarget, Copied, Followed, Inside, Resolve, NothingBeside, Base, NoExtension, Split, SOURCE_FILE_EXTENSIONS;
    FollowedIsCollected(files, collected, from, specifier);
    if !Inside(root, Dirname(from), Split(specifier, '/')) {
      LosesIfOutside(files, collected, root, iso, copy, from, specifier);
    } else if Base(from, specifier) == root {
      KeepsAtRoot(files, collected, root, iso, copy, from, specifier);
    } else {
      KeepsIfInside(files, collected, root, iso, copy, from, specifier);
    }
  }

  /** No file is in the place of the root, and the new directory has a fresh name. */
  ghost predicate FreshCopy(files: Files, collected: set<Path>, root: Path, iso: Path, copy: Files) {
    && root !in collected && NothingBeside(iso, copy)
    && forall p, s | Followed(files, collected, p, s) :: FreshFor(iso, s)
  }

  ghost predicate AllSurvive(files: Files, collected: set<Path>, root: Path, iso: Path) {
    forall p, s | Followed(files, collected, p, s) :: Survives(root, iso, p, s, Resolve(files, p, s).value)
  }

  /** For the whole graph: all specifiers that resolve keep their targets exactly when all
      of them survive. */
  lemma GraphRelocatesExactly(files: Files, collected: set<Path>, root: Path, iso: Path, copy: Files)
    requires Copied(files, collected, root, iso, copy) && Closed(collected, Imports(files))
    requires FreshCopy(files, collected, root, iso, copy)
    ensures (forall p, s | Followed(files, collected, p, s) :: KeepsTarget(files, root, iso, copy, p, s))
            <==> AllSurvive(files, collected, root, iso)
  {
    hide Followed, Base, FreshFor, KeepsTarget, Survives, Split, Resolve, NothingBeside;
    forall p, s | Followed(files, collected, p, s)
      ensures p in collected
      ensures Resolve(files, p, s).Some?
      ensures KeepsTarget(files, root, iso, copy, p, s) <==> Survives(root, iso, p, s, Resolve(files, p, s).value)
    {
      FollowedIsCollected(files, collected, p, s);
      ResolveRelocatesExactly(files, collected, root, iso, copy, p, s);
    }
  }

  lemma FollowedIsCollected(files: Files, collected: set<Path>, p: Path, s: string)
    requires Followed(files, collected, p, s)
    ensures p in collected && Resolve(files, p, s).Some?
  {
  }

  /** A package in which `a.ts` imports `b.ts` by way of the name of their directory. */
  function ByName(): Files {
    map[["r", "p", "a.ts"] := ["../p/b.ts"], ["r", "p", "b.ts"] := []]
  }

  lemma ByNameResolves()
    ensures Split("../p/b.ts", '/') == ["..", "p", "b.ts"]
    ensures Base(["r", "p", "a.ts"], "../p/b.ts") == ["r", "p", "b.ts"]
    ensures Resolve(ByName(), ["r", "p", "a.ts"], "../p/b.ts") == Some(["r", "p", "b.ts"])
  {
    hide Split;
    SplitAfter("b.ts", "", '/');
    SplitAfter("p", "b.ts", '/');
    SplitAfter("..", "p/b.ts", '/');
    assert "../p/b.ts" == ".." + ['/'] + "p/b.ts" && "p/b.ts" == "p" + ['/'] + "b.ts";
    var parts := ["..", "p", "b.ts"];
    assert parts == [".."] + (["p"] + ["b.ts"]);
    assert parts[1..] == ["p", "b.ts"] && ["p", "b.ts"][1..] == ["b.ts"] && ["b.ts"][1..] == [];
    assert StepDir(["r", "p"], "..") == ["r"] && StepDir(["r"], "p") == ["r", "p"];
    assert Walk(["r", "p"], parts) == Walk(["r"], ["p", "b.ts"]) == Walk(["r", "p"], ["b.ts"]) == ["r", "p", "b.ts"];
  }

  lemma ByNameImports()
    ensures Imports(ByName())(["r", "p", "a.ts"]) == [["r", "p", "b.ts"]]
    ensures forall p :: p != ["r", "p", "a.ts"] ==> Imports(ByName())(p) == []
  {
    hide Resolve, Base, Split;
    var a: Path, specifiers := ["r", "p", "a.ts"], ["../p/b.ts"];
    ByNameResolves();
    assert specifiers[..|specifiers| - 1] == [] && IsRelative(specifiers[0]);
    assert ResolvedAll(ByName(), a, []) == [];
    assert ResolvedAll(ByName(), a, specifiers) == [] + [["r", "p", "b.ts"]];
  }

  lemma ByNameLeast()
    ensures Least({["r", "p", "a.ts"], ["r", "p", "b.ts"]}, ["r", "p", "a.ts"], Imports(ByName()))
  {
    hide Imports;
    ByNameImports();
    var a: Path, b: Path := ["r", "p", "a.ts"], ["r", "p", "b.ts"];
    forall c: set<Path> | a in c && Closed(c, Imports(ByName()))
      ensures {a, b} <= c
    {
      assert b in Imports(ByName())(a);
    }
  }

  lemma OtherEnd(name: string, end: string)
    requires name != "" && end != "" && name[|name| - 1] != end[|end| - 1]
    ensures !EndsWith(name, end)
  {
  }

  lemma ExtensionEnds(e: string)
    requires e in SOURCE_FILE_EXTENSIONS
    ensures e != "" && (e[|e| - 1] == 's' || e[|e| - 1] == 'x')
  {
  }

  lemma SampleNameIsFresh()
    ensures FreshFor(["r", "cache", "p-1"], "../p/b.ts")
  {
    hide Split, EndsWith, SOURCE_FILE_EXTENSIONS;
    ByNameResolves();
    forall e | e in SOURCE_FILE_EXTENSIONS
      ensures !EndsWith("p-1", e)
    {
      ExtensionEnds(e);
      OtherEnd("p-1", e);
    }
  }

  /** Climbing out and coming back by name loses the target: the copied `a.ts` does not find
      the copied `b.ts`. */
  lemma ByNameIsLost(copy: Files)
    requires Copied(ByName(), {["r", "p", "a.ts"], ["r", "p", "b.ts"]}, ["r", "p"], ["r", "cache", "p-1"], copy)
    ensures Least({["r", "p", "a.ts"], ["r", "p", "b.ts"]}, ["r", "p", "a.ts"], Imports(ByName()))
    ensures !KeepsTarget(ByName(), ["r", "p"], ["r", "cache", "p-1"], copy, ["r", "p", "a.ts"], "../p/b.ts")
  {
    hide Resolve, Base, Copied, Split, FreshFor, KeepsTarget;
    var a: Path, b: Path, root: Path, s := ["r", "p", "a.ts"], ["r", "p", "b.ts"], ["r", "p"], "../p/b.ts";
    ByNameLeast();
    ByNameResolves();
    SampleNameIsFresh();
    assert Dirname(a) == root && !Inside(root, root, ["..", "p", "b.ts"]);
    LosesIfOutside(ByName(), {a, b}, root, ["r", "cache", "p-1"], copy, a, s);
  }

  /** A package with a dot in its name, in which `a.ts` imports the index file above it. */
  function ByRoot(): Files {
    map[["r", "p.q", "a.ts"] := [".."], ["r", "index.ts"] := []]
  }

  lemma FirstIndex()
    ensures FirstFile(ByRoot(), FilesAndIndexes([], "r", ["r"], SOURCE_FILE_EXTENSIONS)) == Some(["r", "index.ts"])
  {
    var dir: Path, root: Path, extensions := [], ["r"], SOURCE_FILE_EXTENSIONS;
    var beside, index := dir + ["r" + extensions[0]], root + ["index" + extensions[0]];
    var rest := FilesAndIndexes(dir, "r", root, extensions[1..]);
    assert FilesAndIndexes(dir, "r", root, extensions) == [beside, index] + rest;
    TwoCandidates(ByRoot(), beside, index, rest);
    assert "index" + ".ts" == "index.ts" && index == ["r", "index.ts"] && |beside| == 1;
  }

  lemma ByRootResolves()
    ensures Split("..", '/') == [".."] && Base(["r", "p.q", "a.ts"], "..") == ["r"]
    ensures Resolve(ByRoot(), ["r", "p.q", "a.ts"], "..") == Some(["r", "index.ts"])
  {
    hide Split;
    SplitAfter("..", "", '/');
    assert [".."][1..] == [] && Walk(["r", "p.q"], [".."]) == Walk(["r"], []) == ["r"];
    assert "r"[..0] == "" && LastDot("r") == -1;
    FirstIndex();
    DirectoryResolves(ByRoot(), ["r"]);
  }

  lemma ByRootImports()
    ensures Imports(ByRoot())(["r", "p.q", "a.ts"]) == [["r", "index.ts"]]
    ensures forall p :: p != ["r", "p.q", "a.ts"] ==> Imports(ByRoot())(p) == []
  {
    hide Resolve, Base, Split;
    var a: Path, specifiers := ["r", "p.q", "a.ts"], [".."];
    ByRootResolves();
    assert specifiers[..|specifiers| - 1] == [] && IsRelative(specifiers[0]);
    assert ResolvedAll(ByRoot(), a, []) == [];
    assert ResolvedAll(ByRoot(), a, specifiers) == [] + [["r", "index.ts"]];
  }

  lemma ByRootLeast()
    ensures Least({["r", "p.q", "a.ts"], ["r", "index.ts"]}, ["r", "p.q", "a.ts"], Imports(ByRoot()))
  {
    hide Imports;
    ByRootImports();
    var a: Path, b: Path := ["r", "p.q", "a.ts"], ["r", "index.ts"];
    forall c: set<Path> | a in c && Closed(c, Imports(ByRoot()))
      ensures {a, b} <= c
    {
      assert b in Imports(ByRoot())(a);
    }
  }

  lemma DottedNameIsFresh()
    ensures FreshFor(["c", "p.q-1"], "..")
  {
    hide Split, EndsWith, SOURCE_FILE_EXTENSIONS;
    ByRootResolves();
    forall e | e in SOURCE_FILE_EXTENSIONS
      ensures !EndsWith("p.q-1", e)
    {
      ExtensionEnds(e);
      OtherEnd("p.q-1", e);
    }
  }

  lemma DottedNameHasExtension()
    ensures !NoExtension(["c", "p.q-1"])
  {
    var name := "p.q-1";
    assert name[..4] == "p.q-" && name[..4][..3] == "p.q" && name[..4][..3][..2] == "p.";
    assert LastDot("p.") == 1 == LastDot("p.q") == LastDot("p.q-") == LastDot(name);
  }

  /** Staying inside is not enough for a specifier that leads to the root: `mkdtemp` keeps the
      dot of the package name, and a directory name with an extension is not tried for its
      index file. */
  lemma DottedNameLosesIndex(copy: Files)
    requires Copied(ByRoot(), {["r", "p.q", "a.ts"], ["r", "index.ts"]}, ["r"], ["c", "p.q-1"], copy)
    requires NothingBeside(["c", "p.q-1"], copy)
    ensures Least({["r", "p.q", "a.ts"], ["r", "index.ts"]}, ["r", "p.q", "a.ts"], Imports(ByRoot()))
    ensures Inside(["r"], ["r", "p.q"], Split("..", '/')) && FreshFor(["c", "p.q-1"], "..")
    ensures !KeepsTarget(ByRoot(), ["r"], ["c", "p.q-1"], copy, ["r", "p.q", "a.ts"], "..")
  {
    hide Resolve, Base, Copied, Split, KeepsTarget, NoExtension, NothingBeside, Imports, FreshFor;
    var a: Path, b: Path, root: Path := ["r", "p.q", "a.ts"], ["r", "index.ts"], ["r"];
    ByRootLeast();
    ByRootResolves();
    DottedNameIsFresh();
    DottedNameHasExtension();
    assert Dirname(a) == ["r", "p.q"] && [".."][1..] == [] && StepDir(["r", "p.q"], "..") == root;
    assert Followed(ByRoot(), {a, b}, a, "..");
    KeepsAtRoot(ByRoot(), {a, b}, root, ["c", "p.q-1"], copy, a, "..");
  }

  // ---------- the whole copy ----------

  function ImageSet(root: Path, iso: Path, ps: set<Path>): set<Path>
    requires forall p <- ps :: root <= p
  {
    set p | p in ps :: Image(root, iso, p)
  }

  /** Every relative specifier of the collected files is contained. */
  ghost predicate AllContained(files: Files, collected: set<Path>, root: Path)
    requires collected <= files.Keys
  {
    forall p, s | p in collected && s in files[p] && IsRelative(s) :: Contained(root, p, s)
  }

  lemma {:induction false} ImportsRelocate(files: Files, collected: set<Path>, root: Path, iso: Path, copy: Files, p: Path, y: Path)
    requires Copied(files, collected, root, iso, copy) && Closed(collected, Imports(files))
    requires collected <= files.Keys && AllContained(files, collected, root) && p in collected
    ensures y in Imports(copy)(Image(root, iso, p)) <==>
            exists t :: t in Imports(files)(p) && root <= t && y == Image(root, iso, t)
  {
    var q := Image(root, iso, p);
    ResolvedLaw(files, p, files[p]);
    ResolvedLaw(copy, q, files[p]);
    if y in Imports(copy)(q) {
      var s :| s in files[p] && IsRelative(s) && Resolve(copy, q, s) == Some(y);
      ResolveRelocates(files, collected, root, iso, copy, p, s);
      assert Resolve(files, p, s).value in Imports(files)(p);
    }
    if t :| t in Imports(files)(p) && root <= t && y == Image(root, iso, t) {
      var s :| s in files[p] && IsRelative(s) && Resolve(files, p, s) == Some(t);
      ResolveRelocates(files, collected, root, iso, copy, p, s);
    }
  }

  /** Following the imports of the copied entry in the copy finds exactly the copied
      files: the closure of the image is the image of the closure. */
  lemma ClosureRelocates(files: Files, collected: set<Path>, root: Path, iso: Path, copy: Files, entry: Path)
    requires Least(collected, entry, Imports(files)) && collected <= files.Keys
    requires Copied(files, collected, root, iso, copy) && AllContained(files, collected, root)
    ensures Least(ImageSet(root, iso, collected), Image(root, iso, entry), Imports(copy))
  {
    var images := ImageSet(root, iso, collected);
    forall x, y | x in images && y in Imports(copy)(x)
      ensures y in images
    {
      var p :| p in collected && x == Image(root, iso, p);
      ImportsRelocate(files, collected, root, iso, copy, p, y);
    }
    forall c: set<Path> | Image(root, iso, entry) in c && Closed(c, Imports(copy))
      ensures images <= c
    {
      var back := set p | p in collected && Image(root, iso, p) in c;
      forall x, y | x in back && y in Imports(files)(x)
        ensures y in back
      {
        assert y in collected;
        ImportsRelocate(files, collected, root, iso, copy, x, Image(root, iso, y));
      }
      assert Closed(back, Imports(files));
      assert collected <= back;
    }
  }

  lemma {:induction false} WalkNames(dir: Path, names: Path)
    requires Proper(names)
    ensures Walk(dir, names) == dir + names
    decreases |names|
  {
    if names != [] {
      assert names[0] in names && forall s <- names[1..] :: s in names;
      WalkNames(dir + [names[0]], names[1..]);
      assert dir + names == (dir + [names[0]]) + names[1..];
    } else {
      assert dir + names == dir;
    }
  }

  /** The target that the copy loop computes for a file under the copy root. */
  lemma TargetIsImage(root: Path, iso: Path, p: Path)
    requires root <= p && Proper(p)
    ensures Walk(iso, Relative(root, p)) == Image(root, iso, p)
  {
    LcpPrefix(root, p);
    assert Relative(root, p) == p[|root|..];
    assert forall s <- p[|root|..] :: s in p;
    WalkNames(iso, p[|root|..]);
  }

  /** The files of a package: resolved paths, none of them above the package root. */
  ghost predicate WellFormed(files: Files, packageRoot: Path) {
    && Proper(packageRoot) && (forall p <- files :: Proper(p) && !ProperAncestor(p, packageRoot))
  }

  /** The script's only call of `resolveCommonAncestor` never overshoots: a file does not lie
      above the directory of the package. */
  lemma CallerNeverOvershoots(files: Files, packageRoot: Path, listed: seq<Path>)
    requires WellFormed(files, packageRoot) && forall p <- listed :: p in files
    ensures !Overshoots(packageRoot, listed)
    ensures ContainsAll(packageRoot[..AncestorLength(packageRoot, listed)], packageRoot, listed)
  {
    CommonAncestorExact(packageRoot, listed);
  }

  /** The copy loop: writes each collected file to its target. */
  method CopyAll(files: Files, collected: set<Path>, root: Path, iso: Path) returns (copy: Files)
    requires collected <= files.Keys && forall p <- collected :: root <= p && Proper(p)
    requires forall q <- files :: !(iso <= q)
    ensures Copied(files, collected, root, iso, copy)
    ensures forall q <- files :: q in copy && copy[q] == files[q]
    ensures forall q <- copy :: q in files || iso <= q
  {
    copy := files;
    var todo, done: set<Path> := collected, {};
    while todo != {}
      invariant todo + done == collected && todo !! done
      invariant Copied(files, done, root, iso, copy)
      invariant forall q <- files :: q in copy && copy[q] == files[q]
      invariant forall q <- copy :: q in files || iso <= q
      decreases todo
    {
      var p :| p in todo;
      var target := Walk(iso, Relative(root, p));
      TargetIsImage(root, iso, p);
      CopyOne(files, done, root, iso, copy, p);
      copy := copy[target := files[p]];
      todo, done := todo - {p}, done + {p};
    }
    assert done == collected;
  }

  lemma CopyOne(files: Files, done: set<Path>, root: Path, iso: Path, copy: Files, p: Path)
    requires Copied(files, done, root, iso, copy) && root <= p && p in files
    ensures Copied(files, done + {p}, root, iso, copy[Image(root, iso, p) := files[p]])
  {
    var target := Image(root, iso, p);
    forall q | q in done
      ensures Image(root, iso, q) == target ==> q == p
    {
      assert q == root + Image(root, iso, q)[|iso|..] && p == root + target[|iso|..];
    }
  }

  /** `copyModuleImportGraphWithoutNodeModules` into a fresh directory: the module is at its
      new path, the specifiers keep their targets exactly when all survive, and if all are
      contained the copy holds the whole closure of the new module. */
  method CopyModuleImportGraph(files: Files, packageRoot: Path, modulePath: Path, iso: Path)
    returns (r: Result<(Path, Files, Path)>)
    requires WellFormed(files, packageRoot)
    requires forall q <- files :: !(iso <= q)
    ensures r.Thrown? <==> modulePath !in files
    ensures r.Ok? ==>
              var (target, copy, root) := r.value;
              && root <= packageRoot && root <= modulePath && target == Image(root, iso, modulePath)
              && (forall q <- files :: q in copy && copy[q] == files[q]) && (forall q <- copy :: q in files || iso <= q)
              && exists collected: set<Path> ::
                   && Least(collected, modulePath, Imports(files)) && collected <= files.Keys
                   && Copied(files, collected, root, iso, copy)
                   && (AllContained(files, collected, root) ==> Least(ImageSet(root, iso, collected), target, Imports(copy)))
                   && (FreshCopy(files, collected, root, iso, copy) ==>
                         ((forall p, s | Followed(files, collected, p, s) :: KeepsTarget(files, root, iso, copy, p, s))
                          <==> AllSurvive(files, collected, root, iso)))
  {
    var graph := CollectRelativeImportGraph(files, modulePath);
    if graph.Thrown? {
      return Thrown(graph.message);
    }
    var collected := graph.value;
    var listed := ListOf(collected);
    var ancestor := ResolveCommonAncestor([packageRoot] + listed);
    assert ([packageRoot] + listed)[1..] == listed;
    CallerNeverOvershoots(files, packageRoot, listed);
    var root := ancestor.value;
    assert forall p <- collected :: p in listed && root <= p;
    var copy := CopyAll(files, collected, root, iso);
    TargetIsImage(root, iso, modulePath);
    if AllContained(files, collected, root) {
      ClosureRelocates(files, collected, root, iso, copy, modulePath);
    }
    if FreshCopy(files, collected, root, iso, copy) {
      GraphRelocatesExactly(files, collected, root, iso, copy);
    }
    r := Ok((Walk(iso, Relative(root, modulePath)), copy, root));
  }

  method ListOf(s: set<Path>) returns (l: seq<Path>)
    ensures forall p :: p in l <==> p in s
  {
    l := [];
    var todo := s;
    while todo != {}
      invariant todo <= s && forall p :: p in l <==> p in s - todo
      decreases todo
    {
      var p :| p in todo;
      l, todo := l + [p], todo - {p};
    }
  }
}
