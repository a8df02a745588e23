/** Which file a relative import specifier means. */
module ImportNames {
  import opened Text
  import opened Paths
  import opened ImportGraph

  const Extensions := [".ts", ".tsx", ".mts", ".cts", ".js", ".jsx", ".mjs", ".cjs"]

  // ---------- extensions ----------

  /** The name is a stem and an extension: a last dot, not at the start, and what follows it. */
  predicate HasExtension(name: string, stem: string, extension: string) {
    && name == stem + extension && stem != ""
    && extension != "" && extension[0] == '.' && '.' !in extension[1..]
  }

  /** No dot but possibly at the start. */
  predicate Plain(name: string) {
    forall i | 0 < i < |name| :: name[i] != '.'
  }

  lemma {:induction false} LastDotLaw(name: string)
    ensures LastDot(name) >= 0 ==> name[LastDot(name)] == '.'
    ensures forall i | LastDot(name) < i < |name| :: name[i] != '.'
  {
    if name != "" && name[|name| - 1] != '.' {
      LastDotLaw(name[..|name| - 1]);
    }
  }

  /** The extension that is split off is the only one the name has; plain names have none. */
  lemma ExtensionExactly(name: string, stem: string, extension: string)
    ensures HasExtension(name, stem, extension) <==> SplitExtension(name) == (stem, extension) && extension != ""
    ensures Plain(name) <==> SplitExtension(name) == (name, "")
  {
    hide LastDot;
    LastDotLaw(name);
    var d := LastDot(name);
    if HasExtension(name, stem, extension) {
      assert name[|stem|] == '.';
      forall i | |stem| < i < |name|
        ensures name[i] != '.'
      {
        assert name[i] == extension[1..][i - |stem| - 1];
      }
      assert d == |stem|;
    }
    if d > 0 {
      assert name == name[..d] + name[d..];
      forall c | c in name[d..][1..]
        ensures c != '.'
      {
        var i :| 0 <= i < |name| - d - 1 && name[d..][1..][i] == c;
        assert name[d + 1 + i] == c;
      }
    }
  }

  /** Every name has exactly one extension or is plain. */
  lemma NameForms(name: string)
    ensures Plain(name) <==> !exists stem, extension :: HasExtension(name, stem, extension)
    ensures forall s, e, s', e' | HasExtension(name, s, e) && HasExtension(name, s', e') :: s == s' && e == e'
  {
    hide LastDot, SplitExtension;
    var (stem, extension) := SplitExtension(name);
    forall s, e
      ensures HasExtension(name, s, e) <==> SplitExtension(name) == (s, e) && e != ""
      ensures Plain(name) <==> SplitExtension(name) == (name, "")
    {
      ExtensionExactly(name, s, e);
    }
    SplitParts(name);
    if !Plain(name) {
      assert extension != "" by {
        assert extension == "" ==> name == stem;
      }
      assert HasExtension(name, stem, extension);
    }
  }

  lemma SplitParts(name: string)
    ensures var (stem, extension) := SplitExtension(name); name == stem + extension
  {
  }

  // ---------- the first of several names ----------

  /** `t` is the first existing one of the names made of `stem` and an extension. */
  predicate FirstSibling(files: Files, dir: Path, stem: string, extensions: seq<string>, t: Path) {
    exists i | 0 <= i < |extensions| ::
      && t == dir + [stem + extensions[i]] && t in files
      && forall j | 0 <= j < i :: dir + [stem + extensions[j]] !in files
  }

  lemma {:induction false} SiblingsChoose(files: Files, dir: Path, stem: string, extensions: seq<string>, t: Path)
    ensures FirstFile(files, Siblings(dir, stem, extensions)) == Some(t) <==> FirstSibling(files, dir, stem, extensions, t)
  {
    if extensions != [] {
      var head, rest := dir + [stem + extensions[0]], extensions[1..];
      SiblingsChoose(files, dir, stem, rest, t);
      var all := Siblings(dir, stem, extensions);
      assert all[0] == head && all[1..] == Siblings(dir, stem, rest);
      SiblingHead(files, dir, stem, extensions, t);
    }
  }

  lemma SiblingHead(files: Files, dir: Path, stem: string, extensions: seq<string>, t: Path)
    requires extensions != []
    ensures FirstSibling(files, dir, stem, extensions, t) <==>
              var head := dir + [stem + extensions[0]];
              if head in files then t == head else FirstSibling(files, dir, stem, extensions[1..], t)
  {
    var head, rest := dir + [stem + extensions[0]], extensions[1..];
    if head !in files && FirstSibling(files, dir, stem, rest, t) {
      var i :| 0 <= i < |rest| && t == dir + [stem + rest[i]] && t in files
               && forall j | 0 <= j < i :: dir + [stem + rest[j]] !in files;
      assert rest[i] == extensions[i + 1];
      forall j | 0 <= j < i + 1
        ensures dir + [stem + extensions[j]] !in files
      {
        assert j > 0 ==> rest[j - 1] == extensions[j];
      }
    }
    if FirstSibling(files, dir, stem, extensions, t) {
      var i :| 0 <= i < |extensions| && t == dir + [stem + extensions[i]] && t in files
               && forall j | 0 <= j < i :: dir + [stem + extensions[j]] !in files;
      if i > 0 {
        assert head !in files && rest[i - 1] == extensions[i];
        forall j | 0 <= j < i - 1
          ensures dir + [stem + rest[j]] !in files
        {
          assert rest[j] == extensions[j + 1];
        }
      }
    }
  }

  /** `t` is the first existing one when for each extension a file beside and an index file
      inside are tried. */
  predicate FirstOfPairs(files: Files, dir: Path, name: string, base: Path, extensions: seq<string>, t: Path) {
    exists i | 0 <= i < |extensions| ::
      && t in files
      && (t == dir + [name + extensions[i]] ||
          (t == base + ["index" + extensions[i]] && dir + [name + extensions[i]] !in files))
      && forall j | 0 <= j < i :: dir + [name + extensions[j]] !in files && base + ["index" + extensions[j]] !in files
  }

  lemma {:induction false} PairsChoose(files: Files, dir: Path, name: string, base: Path, extensions: seq<string>, t: Path)
    ensures FirstFile(files, FilesAndIndexes(dir, name, base, extensions)) == Some(t) <==>
              FirstOfPairs(files, dir, name, base, extensions, t)
  {
    if extensions != [] {
      var rest := extensions[1..];
      PairsChoose(files, dir, name, base, rest, t);
      var all := FilesAndIndexes(dir, name, base, extensions);
      assert all[0] == dir + [name + extensions[0]] && all[1..][0] == base + ["index" + extensions[0]];
      assert all[1..][1..] == FilesAndIndexes(dir, name, base, rest);
      PairHead(files, dir, name, base, extensions, t);
    }
  }

  lemma PairHead(files: Files, dir: Path, name: string, base: Path, extensions: seq<string>, t: Path)
    requires extensions != []
    ensures FirstOfPairs(files, dir, name, base, extensions, t) <==>
              var beside, inside := dir + [name + extensions[0]], base + ["index" + extensions[0]];
              if beside in files then t == beside
              else if inside in files then t == inside
              else FirstOfPairs(files, dir, name, base, extensions[1..], t)
  {
    var beside, inside, rest := dir + [name + extensions[0]], base + ["index" + extensions[0]], extensions[1..];
    if beside !in files && inside !in files && FirstOfPairs(files, dir, name, base, rest, t) {
      var i :| 0 <= i < |rest| && t in files
               && (t == dir + [name + rest[i]] || (t == base + ["index" + rest[i]] && dir + [name + rest[i]] !in files))
               && forall j | 0 <= j < i :: dir + [name + rest[j]] !in files && base + ["index" + rest[j]] !in files;
      assert rest[i] == extensions[i + 1];
      forall j | 0 <= j < i + 1
        ensures dir + [name + extensions[j]] !in files && base + ["index" + extensions[j]] !in files
      {
        assert j > 0 ==> rest[j - 1] == extensions[j];
      }
    }
    if FirstOfPairs(files, dir, name, base, extensions, t) {
      var i :| 0 <= i < |extensions| && t in files
               && (t == dir + [name + extensions[i]] ||
                   (t == base + ["index" + extensions[i]] && dir + [name + extensions[i]] !in files))
               && forall j | 0 <= j < i :: dir + [name + extensions[j]] !in files && base + ["index" + extensions[j]] !in files;
      if i > 0 {
        assert beside !in files && inside !in files && rest[i - 1] == extensions[i];
        forall j | 0 <= j < i - 1
          ensures dir + [name + rest[j]] !in files && base + ["index" + rest[j]] !in files
        {
          assert rest[j] == extensions[j + 1];
        }
      }
    }
  }

  // ---------- what a specifier means ----------

  /** A specifier whose last name has an extension means the named file itself, or else the
      first file with the same stem and one of the eight extensions. */
  lemma ResolvesWithExtension(files: Files, from: Path, specifier: string, dir: Path, stem: string, extension: string, t: Path)
    requires Base(from, specifier) == dir + [stem + extension] && HasExtension(stem + extension, stem, extension)
    ensures var base := Base(from, specifier);
            Resolve(files, from, specifier) == Some(t) <==>
              if base in files then t == base else FirstSibling(files, dir, stem, Extensions, t)
    ensures Resolve(files, from, specifier).None? <==>
              && Base(from, specifier) !in files
              && forall e <- Extensions :: dir + [stem + e] !in files
  {
    hide Siblings, FilesAndIndexes, SplitExtension, Base;
    var base := Base(from, specifier);
    ExtensionExactly(stem + extension, stem, extension);
    assert Dirname(base) == dir && LastSegment(base) == stem + extension;
    assert Candidates(base)[0] == base && Candidates(base)[1..] == Siblings(dir, stem, SOURCE_FILE_EXTENSIONS);
    SiblingsChoose(files, dir, stem, Extensions, t);
    NoSibling(files, dir, stem, Extensions);
  }

  lemma {:induction false} NoSibling(files: Files, dir: Path, stem: string, extensions: seq<string>)
    ensures FirstFile(files, Siblings(dir, stem, extensions)).None? <==> forall e <- extensions :: dir + [stem + e] !in files
  {
    if extensions != [] {
      NoSibling(files, dir, stem, extensions[1..]);
      var all := Siblings(dir, stem, extensions);
      assert all[0] == dir + [stem + extensions[0]] && all[1..] == Siblings(dir, stem, extensions[1..]);
      assert extensions == [extensions[0]] + extensions[1..];
    }
  }

  lemma {:induction false} NoPair(files: Files, dir: Path, name: string, base: Path, extensions: seq<string>)
    ensures FirstFile(files, FilesAndIndexes(dir, name, base, extensions)).None? <==>
              forall e <- extensions :: dir + [name + e] !in files && base + ["index" + e] !in files
  {
    if extensions != [] {
      NoPair(files, dir, name, base, extensions[1..]);
      var all := FilesAndIndexes(dir, name, base, extensions);
      assert all[0] == dir + [name + extensions[0]] && all[1..][0] == base + ["index" + extensions[0]];
      assert all[1..][1..] == FilesAndIndexes(dir, name, base, extensions[1..]);
      assert extensions == [extensions[0]] + extensions[1..];
    }
  }

  /** The last name of a path and where it stands; the root has an empty name. */
  predicate Ends(base: Path, dir: Path, name: string) {
    if base == [] then dir == [] && name == "" else base == dir + [name]
  }

  /** A specifier whose last name has no extension means the named file itself, or else the
      first that exists of the name with an extension and the index file with that extension
      in the directory of that name, for the eight extensions in turn. */
  lemma ResolvesWithoutExtension(files: Files, from: Path, specifier: string, dir: Path, name: string, t: Path)
    requires Ends(Base(from, specifier), dir, name) && Plain(name)
    ensures var base := Base(from, specifier);
            Resolve(files, from, specifier) == Some(t) <==>
              if base in files then t == base else FirstOfPairs(files, dir, name, base, Extensions, t)
    ensures Resolve(files, from, specifier).None? <==>
              && Base(from, specifier) !in files
              && forall e <- Extensions :: dir + [name + e] !in files && Base(from, specifier) + ["index" + e] !in files
  {
    hide Siblings, FilesAndIndexes, SplitExtension, Base;
    var base := Base(from, specifier);
    ExtensionExactly(name, name, "");
    assert Dirname(base) == dir && LastSegment(base) == name;
    assert Candidates(base)[0] == base && Candidates(base)[1..] == FilesAndIndexes(dir, name, base, SOURCE_FILE_EXTENSIONS);
    PairsChoose(files, dir, name, base, Extensions, t);
    NoPair(files, dir, name, base, Extensions);
  }

  /** A specifier `./name` names the file of that name beside the importing one. */
  lemma BesideIt(from: Path, name: string)
    requires '/' !in name && name != "" && name != "." && name != ".."
    ensures Base(from, "./" + name) == Dirname(from) + [name]
  {
    SplitAfter(".", name, '/');
    SplitAfter(name, "", '/');
    assert "./" + name == "." + ['/'] + name;
    assert [".", name][1..] == [name] && [name][1..] == [];
    assert Walk(StepDir(Dirname(from), "."), [name]) == Walk(StepDir(Dirname(from), name), []);
  }

  /** So a specifier for the compiled file finds the source file beside it. */
  lemma CompiledNameFindsSource(files: Files, from: Path, stem: string)
    requires stem != "" && '/' !in stem
    requires Dirname(from) + [stem + ".js"] !in files && Dirname(from) + [stem + ".ts"] in files
    ensures Resolve(files, from, "./" + (stem + ".js")) == Some(Dirname(from) + [stem + ".ts"])
  {
    hide Resolve, Base, Dirname;
    assert |stem + ".js"| > 2;
    BesideIt(from, stem + ".js");
    ResolvesWithExtension(files, from, "./" + (stem + ".js"), Dirname(from), stem, ".js", Dirname(from) + [stem + ".ts"]);
    assert Extensions[0] == ".ts";
  }

  /** The imports of a file: what its specifiers that start with a dot resolve to. */
  lemma ImportsExactly(files: Files, from: Path, t: Path)
    ensures t in Imports(files)(from) <==>
              && from in files
              && exists s :: s in files[from] && s != "" && s[0] == '.' && Resolve(files, from, s) == Some(t)
  {
    hide Resolve;
    if from in files {
      ResolvedLaw(files, from, files[from]);
    }
  }

  // ---------- relative paths ----------

  lemma {:induction false} WalkUp(a: Path, n: nat, rest: seq<string>)
    requires n <= |a|
    ensures Walk(a, seq(n, _ => "..") + rest) == Walk(a[..|a| - n], rest)
    decreases n
  {
    var ups := seq(n, _ => "..") + rest;
    if n == 0 {
      assert ups == rest && a[..|a|] == a;
    } else {
      assert ups[0] == ".." && ups[1..] == seq(n - 1, _ => "..") + rest;
      WalkUp(a[..|a| - 1], n - 1, rest);
      assert a[..|a| - 1][..|a| - n] == a[..|a| - n];
    }
  }

  /** `path.resolve` undoes `path.relative`: walking along the relative path from one path to
      another leads there. */
  lemma RelativeLeads(a: Path, b: Path)
    requires Proper(b)
    ensures Walk(a, Relative(a, b)) == b
  {
    var l := Lcp(a, b);
    WalkUp(a, |a| - l, b[l..]);
    assert forall s <- b[l..] :: s in b;
    WalkNames(a[..l], b[l..]);
    assert b == b[..l] + b[l..];
  }
}
