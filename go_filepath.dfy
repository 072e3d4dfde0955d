/** The lexical path functions of Go's `path/filepath` package on a Unix host,
    where the separator is '/' and there are no volume names. */
module GoFilepath {
  import opened GoStrings

  /** A path element that Clean keeps as written: not empty, not "." or "..",
      and without a separator. Directory entry names are of this kind. */
  predicate IsName(e: string)
  {
    e != "" && e != "." && e != ".." && '/' !in e
  }

  // ---------------------------------------------------------------------------
  // filepath.Clean and filepath.Join
  // ---------------------------------------------------------------------------

  /** The elements of a path with the empty ones (from repeated or trailing
      separators) and the "." ones dropped. */
  function KeptElements(es: seq<string>): seq<string>
  {
    if es == [] then []
    else
      var e := es[|es| - 1];
      KeptElements(es[..|es| - 1]) + (if e == "" || e == "." then [] else [e])
  }

  /** Resolves each ".." against the element before it, left to right. A ".."
      with nothing to remove is dropped in a rooted path and kept otherwise. */
  function Resolve(es: seq<string>, rooted: bool): seq<string>
  {
    if es == [] then []
    else
      var stack := Resolve(es[..|es| - 1], rooted);
      var e := es[|es| - 1];
      if e != ".." then stack + [e]
      else if |stack| > 0 && stack[|stack| - 1] != ".." then stack[..|stack| - 1]
      else if rooted then stack
      else stack + [".."]
  }

  /** filepath.Clean: the shortest lexically equivalent path; "." for an empty result. */
  function Clean(path: string): (r: string)
    ensures r != ""
  {
    if path == "" then "." else Rejoin(path[0] == '/', CleanElements(path))
  }

  /** The elements Clean keeps, in order. */
  function CleanElements(path: string): seq<string>
    requires path != ""
  {
    Resolve(KeptElements(Split(path, '/')), path[0] == '/')
  }

  /** The kept elements joined by separators, after a leading one for a rooted
      path; "." when that is empty. */
  function Rejoin(rooted: bool, elements: seq<string>): (r: string)
    ensures r != ""
  {
    var out := (if rooted then "/" else "") + JoinWith(elements, '/');
    if out == "" then "." else out
  }

  /** filepath.Join of two elements: empty elements are ignored, the result is Cleaned. */
  function Join(a: string, b: string): string
  {
    if a != "" then Clean(a + "/" + b)
    else if b != "" then Clean(b)
    else ""
  }

  // ---------------------------------------------------------------------------
  // filepath.Base and filepath.Ext
  // ---------------------------------------------------------------------------

  function TrimTrailingSlashes(s: string): (r: string)
    ensures r == [] || r[|r| - 1] != '/'
  {
    if s != [] && s[|s| - 1] == '/' then TrimTrailingSlashes(s[..|s| - 1]) else s
  }

  /** What follows the last separator. */
  function LastElement(s: string): string
  {
    if s == [] || s[|s| - 1] == '/' then [] else LastElement(s[..|s| - 1]) + [s[|s| - 1]]
  }

  /** filepath.Base: the last element after trailing separators are removed;
      "." for the empty path and "/" for a path of separators only. */
  function Base(path: string): (r: string)
    ensures r != ""
  {
    if path == "" then "."
    else
      var e := LastElement(TrimTrailingSlashes(path));
      if e == "" then "/" else e
  }

  /** filepath.Ext: the suffix from the last '.' in the last element, or "". */
  function Ext(path: string): string
  {
    if path == [] || path[|path| - 1] == '/' then ""
    else if path[|path| - 1] == '.' then "."
    else
      var e := Ext(path[..|path| - 1]);
      if e == "" then "" else e + [path[|path| - 1]]
  }

  // ---------------------------------------------------------------------------
  // Lemmas
  // ---------------------------------------------------------------------------

  lemma {:induction false} LastElementOfName(p: string, n: string)
    requires '/' !in n
    ensures LastElement(p + "/" + n) == n
    ensures LastElement(n) == n
    decreases |n|
  {
    if n != [] {
      var n' := n[..|n| - 1];
      assert (p + "/" + n)[..|p + "/" + n| - 1] == p + "/" + n';
      LastElementOfName(p, n');
      assert n' + [n[|n| - 1]] == n;
    } else {
      assert p + "/" + n == p + "/";
    }
  }

  /** The base of a path ending in a name, after a separator or alone, is that name. */
  lemma BaseOfName(p: string, n: string)
    requires n != "" && '/' !in n
    ensures Base(p + "/" + n) == n
    ensures Base(n) == n
  {
    LastElementOfName(p, n);
  }

  lemma JoinWithLast(xs: seq<string>, n: string, sep: char)
    ensures JoinWith(xs + [n], sep) == if xs == [] then n else JoinWith(xs, sep) + [sep] + n
  {
    assert (xs + [n])[..|xs + [n]| - 1] == xs;
  }

  /** A name after a separator is kept as the last element by Clean. */
  lemma CleanElementsBeforeName(dir: string, name: string)
    requires IsName(name)
    ensures var path := dir + "/" + name;
      CleanElements(path) == Resolve(KeptElements(Split(dir, '/')), path[0] == '/') + [name]
  {
    var path := dir + "/" + name;
    assert path == dir + ['/'] + name;
    SplitEndingInPiece(dir, name, '/');
    var pieces := Split(dir, '/');
    assert (pieces + [name])[..|pieces|] == pieces;
    var kept := KeptElements(pieces);
    assert (kept + [name])[..|kept|] == kept;
  }

  /** When the last kept element is a name, Clean's output has that name as its base. */
  lemma RejoinBase(rooted: bool, stack: seq<string>, name: string)
    requires IsName(name)
    ensures Base(Rejoin(rooted, stack + [name])) == name
  {
    JoinWithLast(stack, name, '/');
    var prefix := if rooted then "/" else "";
    if stack == [] {
      if rooted {
        assert Rejoin(rooted, stack + [name]) == "" + "/" + name;
        BaseOfName("", name);
      } else {
        assert Rejoin(rooted, stack + [name]) == name;
        BaseOfName("", name);
      }
    } else {
      var p := prefix + JoinWith(stack, '/');
      assert Rejoin(rooted, stack + [name]) == p + "/" + name;
      BaseOfName(p, name);
    }
  }

  /** filepath.Base undoes filepath.Join with a name: Base(Join(dir, name)) == name. */
  lemma JoinBase(dir: string, name: string)
    requires IsName(name)
    ensures Base(Join(dir, name)) == name
  {
    if dir != "" {
      var path := dir + "/" + name;
      CleanElementsBeforeName(dir, name);
      RejoinBase(path[0] == '/', Resolve(KeptElements(Split(dir, '/')), path[0] == '/'), name);
    } else {
      SplitNoSep(name, '/');
      assert KeptElements([name]) == [name];
      assert Resolve([name], false) == [name];
      assert Clean(name) == name;
      BaseOfName("", name);
    }
  }

  /** An element Clean can leave in its output: not empty, not ".", without a separator. */
  predicate IsElement(e: string)
  {
    e != "" && e != "." && '/' !in e
  }

  /** The elements KeptElements keeps from separator-free pieces are elements. */
  lemma {:induction false} KeptElementsAreElements(es: seq<string>)
    requires forall k :: 0 <= k < |es| ==> '/' !in es[k]
    ensures forall k :: 0 <= k < |KeptElements(es)| ==> IsElement(KeptElements(es)[k])
  {
    if es != [] {
      KeptElementsAreElements(es[..|es| - 1]);
    }
  }

  /** Resolving ".." keeps every element an element. */
  lemma {:induction false} ResolveKeepsElements(es: seq<string>, rooted: bool)
    requires forall k :: 0 <= k < |es| ==> IsElement(es[k])
    ensures forall k :: 0 <= k < |Resolve(es, rooted)| ==> IsElement(Resolve(es, rooted)[k])
  {
    if es != [] {
      ResolveKeepsElements(es[..|es| - 1], rooted);
    }
  }

  /** The elements Clean keeps are elements. */
  lemma CleanElementsAreElements(path: string)
    requires path != ""
    ensures forall k :: 0 <= k < |CleanElements(path)| ==> IsElement(CleanElements(path)[k])
  {
    SplitPiecesFree(path, '/');
    KeptElementsAreElements(Split(path, '/'));
    ResolveKeepsElements(KeptElements(Split(path, '/')), path[0] == '/');
  }

  /** Joining elements gives neither "", nor ".", nor a path starting with a separator. */
  lemma {:induction false} JoinWithElements(stack: seq<string>)
    requires stack != []
    requires forall k :: 0 <= k < |stack| ==> IsElement(stack[k])
    ensures var j := JoinWith(stack, '/'); j != "" && j != "." && j[0] != '/'
  {
    if |stack| == 1 {
      assert stack[0][0] in stack[0];
    } else {
      JoinWithElements(stack[..|stack| - 1]);
    }
  }

  /** A path made of an optional leading separator and then joined elements is
      neither empty, nor ".", nor the root. */
  lemma PrefixedElements(prefix: string, j: string)
    requires prefix == "/" || prefix == ""
    requires j != "" && j != "." && j[0] != '/'
    ensures var c := prefix + j; c != "" && c != "." && c != "/"
  {
    if prefix == "/" {
      assert |prefix + j| >= 2;
    } else {
      assert prefix + j == j;
    }
  }

  /** Rejoining kept elements followed by a name puts the name after the
      rejoined elements, with one separator unless they rejoin to "/" or ".". */
  lemma RejoinName(rooted: bool, stack: seq<string>, name: string)
    requires forall k :: 0 <= k < |stack| ==> IsElement(stack[k])
    requires IsName(name)
    ensures var c := Rejoin(rooted, stack);
      Rejoin(rooted, stack + [name]) ==
        if c == "/" then "/" + name else if c == "." then name else c + "/" + name
  {
    JoinWithLast(stack, name, '/');
    var prefix := if rooted then "/" else "";
    if stack == [] {
      assert prefix + JoinWith(stack, '/') == prefix;
      assert prefix + JoinWith(stack + [name], '/') == prefix + name;
    } else {
      JoinWithElements(stack);
      var j := JoinWith(stack, '/');
      PrefixedElements(prefix, j);
      assert Rejoin(rooted, stack) == prefix + j;
      assert prefix + (j + ['/'] + name) == (prefix + j) + "/" + name;
    }
  }

  /** filepath.Join with a name: the name after the cleaned directory, with a
      single separator between them; just the name when the directory is empty
      or cleans to ".", and after the root when it cleans to "/". */
  lemma JoinName(dir: string, name: string)
    requires IsName(name)
    ensures dir == "" ==> Join(dir, name) == name
    ensures dir != "" ==>
      Join(dir, name) ==
        (if Clean(dir) == "/" then "/" + name
         else if Clean(dir) == "." then name
         else Clean(dir) + "/" + name)
  {
    if dir != "" {
      var path := dir + "/" + name;
      assert path[0] == dir[0];
      CleanElementsBeforeName(dir, name);
      CleanElementsAreElements(dir);
      RejoinName(dir[0] == '/', CleanElements(dir), name);
    } else {
      SplitNoSep(name, '/');
      assert KeptElements([name]) == [name];
      assert Resolve([name], false) == [name];
    }
  }

  /** Joining "." adds nothing: Join(dir, ".") is Clean(dir). */
  lemma JoinDot(dir: string)
    ensures Join(dir, ".") == Clean(dir)
  {
    if dir != "" {
      var path := dir + "/" + ".";
      assert path == dir + ['/'] + ".";
      assert path[0] == dir[0];
      SplitEndingInPiece(dir, ".", '/');
      var pieces := Split(dir, '/');
      assert (pieces + ["."])[..|pieces|] == pieces;
      assert KeptElements(pieces + ["."]) == KeptElements(pieces);
      assert CleanElements(path) == CleanElements(dir);
    } else {
      SplitNoSep(".", '/');
      assert KeptElements(["."]) == [];
    }
  }

  /** Joining "/" onto a non-empty directory adds nothing: Join(dir, "/") is Clean(dir). */
  lemma JoinRoot(dir: string)
    requires dir != ""
    ensures Join(dir, "/") == Clean(dir)
  {
    var path := dir + "/" + "/";
    assert path[0] == dir[0];
    var once := dir + "/";
    assert path[..|path| - 1] == once && once[..|once| - 1] == dir;
    var pieces := Split(dir, '/');
    assert Split(once, '/') == pieces + [""];
    assert Split(path, '/') == pieces + [""] + [""];
    assert (pieces + [""] + [""])[..|pieces| + 1] == pieces + [""];
    assert (pieces + [""])[..|pieces|] == pieces;
    assert KeptElements(pieces + [""]) == KeptElements(pieces);
    assert KeptElements(pieces + [""] + [""]) == KeptElements(pieces);
    assert CleanElements(path) == CleanElements(dir);
  }

  /** A name followed by ".." is kept by KeptElements and then resolved away. */
  lemma NameThenParent(pieces: seq<string>, name: string, rooted: bool)
    requires IsName(name)
    ensures Resolve(KeptElements(pieces + [name] + [".."]), rooted) == Resolve(KeptElements(pieces), rooted)
  {
    var p1 := pieces + [name];
    assert (p1 + [".."])[..|p1|] == p1 && p1[..|pieces|] == pieces;
    var kept := KeptElements(pieces);
    var k1 := kept + [name];
    assert KeptElements(p1 + [".."]) == k1 + [".."];
    assert (k1 + [".."])[..|k1|] == k1 && k1[..|kept|] == kept;
    var stack := Resolve(kept, rooted) + [name];
    assert Resolve(k1, rooted) == stack;
    assert stack[..|stack| - 1] == Resolve(kept, rooted);
  }

  /** Joining ".." onto a directory that ends in a name gives its parent, cleaned. */
  lemma JoinParent(parent: string, name: string)
    requires parent != "" && IsName(name)
    ensures Join(parent + "/" + name, "..") == Clean(parent)
  {
    var dir := parent + "/" + name;
    var path := dir + "/" + "..";
    assert path == dir + ['/'] + "..";
    assert dir == parent + ['/'] + name;
    assert path[0] == parent[0] && dir[0] == parent[0];
    SplitEndingInPiece(parent, name, '/');
    SplitEndingInPiece(dir, "..", '/');
    NameThenParent(Split(parent, '/'), name, parent[0] == '/');
    assert CleanElements(path) == CleanElements(parent);
  }

  /** A path made only of separators has base "/". */
  lemma {:induction false} BaseOfSlashes(path: string)
    requires path != "" && forall i :: 0 <= i < |path| ==> path[i] == '/'
    ensures TrimTrailingSlashes(path) == "" && Base(path) == "/"
    decreases |path|
  {
    if |path| > 1 {
      BaseOfSlashes(path[..|path| - 1]);
    }
  }

  /** Ext after appending an ordinary character: it extends a non-empty extension. */
  lemma ExtAppend(p: string, c: char)
    requires c != '/' && c != '.'
    ensures Ext(p + [c]) == if Ext(p) == "" then "" else Ext(p) + [c]
  {
    assert (p + [c])[..|p|] == p;
  }

  /** A path ending in ".sh" has extension ".sh". */
  lemma ExtOfShSuffix(path: string)
    requires HasSuffix(path, ".sh")
    ensures Ext(path) == ".sh"
  {
    var q := path[..|path| - 3];
    assert path == q + ['.'] + ['s'] + ['h'];
    assert Ext(q + ['.']) == ".";
    ExtAppend(q + ['.'], 's');
    assert Ext(q + ['.'] + ['s']) == ".s";
    ExtAppend(q + ['.'] + ['s'], 'h');
  }

  /** An extension of two or more characters ends in the path's last character,
      and what comes before it is the extension of the path without that character. */
  lemma ExtUnwind(path: string, e: string, c: char)
    requires e != "" && Ext(path) == e + [c]
    ensures path != [] && path[|path| - 1] == c && Ext(path[..|path| - 1]) == e
  {
    var p := path[..|path| - 1];
    assert |Ext(path)| >= 2;
    var x := Ext(p);
    assert Ext(path) == x + [path[|path| - 1]];
    assert (x + [path[|path| - 1]])[..|x|] == x && (e + [c])[..|e|] == e;
  }

  /** A path with extension ".sh" ends in ".sh". */
  lemma ShSuffixOfExt(path: string)
    requires Ext(path) == ".sh"
    ensures HasSuffix(path, ".sh")
  {
    assert ".sh" == ".s" + ['h'] && ".s" == "." + ['s'];
    ExtUnwind(path, ".s", 'h');
    var p1 := path[..|path| - 1];
    ExtUnwind(p1, ".", 's');
    var p2 := p1[..|p1| - 1];
    assert p2 != [] && p2[|p2| - 1] == '.';
    assert path == p2 + ['s'] + ['h'];
    assert path[|path| - 3..] == ".sh";
  }

  /** A name has extension ".sh" exactly when it ends with ".sh" (the last '.' of
      such a name is the one before "sh"). */
  lemma ExtIsSh(path: string)
    ensures Ext(path) == ".sh" <==> HasSuffix(path, ".sh")
  {
    if HasSuffix(path, ".sh") {
      ExtOfShSuffix(path);
    }
    if Ext(path) == ".sh" {
      ShSuffixOfExt(path);
    }
  }
}
