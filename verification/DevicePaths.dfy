/** Device paths: how names are cleaned and joined, and the directory and base name under which the cache
    files them. */
module DevicePaths {

  /** A name that can stand between two slashes of a clean path. */
  predicate IsName(c: string) {
    c != "" && c != "." && c != ".." && '/' !in c
  }

  function Render(names: seq<string>): (p: string)
    ensures |p| > 0 && p[0] == '/'
  {
    if names == [] then "/"
    else if |names| == 1 then "/" + names[0]
    else Render(names[..|names| - 1]) + "/" + names[|names| - 1]
  }

  ghost predicate AllNames(names: seq<string>) {
    forall c | c in names :: IsName(c)
  }

  // ----- cleaning -----

  /** The pieces of `s` between its slashes. */
  function Split(s: string): (parts: seq<string>)
    ensures parts != [] && forall c | c in parts :: '/' !in c
    decreases |s|
  {
    if s == "" then [""]
    else
      var rest := Split(s[1..]);
      if s[0] == '/' then [""] + rest else [[s[0]] + rest[0]] + rest[1..]
  }

  function Cleaned(rooted: bool, names: seq<string>, parts: seq<string>): seq<string>
    decreases |parts|
  {
    if parts == [] then names
    else Cleaned(rooted, Entered(rooted, names, parts[0]), parts[1..])
  }

  /** Dots go up as far as there is a name to leave; above that a rooted path stays at the root, and a
      relative one keeps them. */
  function Entered(rooted: bool, names: seq<string>, part: string): seq<string> {
    if part == "" || part == "." then names
    else if part != ".." then names + [part]
    else if names == [] || names[|names| - 1] == ".." then if rooted then names else names + [part]
    else names[..|names| - 1]
  }

  predicate IsRooted(p: string) {
    p != "" && p[0] == '/'
  }

  /** `path.Clean`. */
  function Clean(p: string): string {
    var names := Cleaned(IsRooted(p), [], Split(p));
    if IsRooted(p) then Render(names)
    else if names == [] then "."
    else Render(names)[1..]
  }

  /** Where the last element of a path begins: behind its last slash. */
  function Last(p: string): (i: nat)
    ensures i <= |p| && '/' !in p[i..] && (i > 0 ==> p[i - 1] == '/')
  {
    if p == "" || p[|p| - 1] == '/' then |p|
    else
      var i := Last(p[..|p| - 1]);
      assert p[i..] == p[..|p| - 1][i..] + [p[|p| - 1]];
      i
  }

  function Trimmed(p: string): string {
    if p != "" && p[|p| - 1] == '/' then Trimmed(p[..|p| - 1]) else p
  }

  /** `path.Dir`. */
  function Dir(p: string): string {
    Clean(p[..Last(p)])
  }

  /** `path.Base`. */
  function Base(p: string): string {
    var t := Trimmed(p);
    if p == "" then "." else if t == "" then "/" else t[Last(t)..]
  }

  // ----- clean absolute paths -----

  lemma {:induction false} CleanedNames(names: seq<string>, parts: seq<string>)
    requires AllNames(names) && forall c | c in parts :: '/' !in c
    ensures AllNames(Cleaned(true, names, parts))
    decreases |parts|
  {
    if parts != [] {
      assert parts[0] in parts && forall c | c in parts[1..] :: c in parts;
      CleanedNames(Entered(true, names, parts[0]), parts[1..]);
    }
  }

  lemma {:induction false} CleanedAppends(rooted: bool, names: seq<string>, a: seq<string>, b: seq<string>)
    ensures Cleaned(rooted, names, a + b) == Cleaned(rooted, Cleaned(rooted, names, a), b)
    decreases |a|
  {
    if a == [] {
      assert a + b == b;
    } else {
      assert (a + b)[1..] == a[1..] + b;
      CleanedAppends(rooted, Entered(rooted, names, a[0]), a[1..], b);
    }
  }

  lemma {:induction false} NamesAreClean(rooted: bool, names: seq<string>, more: seq<string>)
    requires AllNames(more)
    ensures Cleaned(rooted, names, more) == names + more
    decreases |more|
  {
    if more == [] {
      assert names + more == names;
    } else {
      assert more[0] in more && forall c | c in more[1..] :: c in more;
      NamesAreClean(rooted, names + [more[0]], more[1..]);
      assert names + [more[0]] + more[1..] == names + more;
    }
  }

  lemma {:induction false} SplitAppends(s: string, c: string)
    requires '/' !in c
    ensures Split(s + "/" + c) == Split(s) + [c]
    decreases |s|
  {
    if s == "" {
      assert "" + "/" + c == "/" + c && ("/" + c)[1..] == c;
      SplitName(c);
    } else {
      assert (s + "/" + c)[1..] == s[1..] + "/" + c;
      SplitAppends(s[1..], c);
    }
  }

  lemma {:induction false} SplitName(c: string)
    requires '/' !in c
    ensures Split(c) == [c]
    decreases |c|
  {
    if c != "" {
      SplitName(c[1..]);
      assert [c[0]] + c[1..] == c;
    }
  }

  lemma EmptyPieces(rooted: bool, before: seq<string>)
    ensures Cleaned(rooted, before, Split("")) == before && Cleaned(rooted, before, Split("/")) == before
  {
    SplitAppends("", "");
    assert "" + "/" + "" == "/" && Split("") == [""] && [""] + [""] == ["", ""];
    assert Cleaned(rooted, before, ["", ""]) == Cleaned(rooted, before, [""]) == Cleaned(rooted, before, []);
  }

  /** A rendered path cleans to its own names. */
  lemma {:induction false} RenderCleans(rooted: bool, before: seq<string>, names: seq<string>)
    requires AllNames(names)
    ensures Cleaned(rooted, before, Split(Render(names))) == before + names
    decreases |names|
  {
    hide Cleaned, Split, IsName;
    EmptyPieces(rooted, before);
    if names == [] {
      assert before + names == before;
    } else {
      var init, last := names[..|names| - 1], names[|names| - 1];
      var s := if init == [] then "" else Render(init);
      assert Render(names) == s + "/" + last;
      assert last in names && IsName(last) && AllNames([last]) && AllNames(init);
      if init == [] {
        assert before + init == before;
      } else {
        RenderCleans(rooted, before, init);
      }
      NamePiece(rooted, before, s, before + init, last);
      assert before + names == before + init + [last];
    }
  }

  lemma NamePiece(rooted: bool, before: seq<string>, s: string, names: seq<string>, c: string)
    requires IsName(c) && Cleaned(rooted, before, Split(s)) == names
    ensures Cleaned(rooted, before, Split(s + "/" + c)) == names + [c]
  {
    SplitAppends(s, c);
    CleanedAppends(rooted, before, Split(s), [c]);
    NamesAreClean(rooted, names, [c]);
  }

  lemma LastIsUnique(p: string, i: nat)
    requires i <= |p| && '/' !in p[i..] && (i > 0 ==> p[i - 1] == '/')
    ensures Last(p) == i
  {
    NoSlashFrom(p, i);
    NoSlashFrom(p, Last(p));
  }

  lemma NoSlashFrom(p: string, i: nat)
    requires i <= |p| && '/' !in p[i..]
    ensures forall k | i <= k < |p| :: p[k] != '/'
  {
    assert forall k | i <= k < |p| :: p[k] == p[i..][k - i];
  }

  /** The directory of `dir/name` is the path a listing of `dir` uses, and its base is `name`. */
  lemma SplitsBack(names: seq<string>, c: string)
    requires AllNames(names) && IsName(c)
    ensures Dir(Render(names + [c])) == Render(names) && Base(Render(names + [c])) == c
  {
    var p := Render(names + [c]);
    assert (names + [c])[..|names|] == names;
    var s := if names == [] then "" else Render(names);
    assert p == (s + "/") + c && p[|s| + 1..] == c && p[..|s| + 1] == s + "/";
    LastIsUnique(p, |s| + 1);
    assert Trimmed(p) == p;
    hide Last, Trimmed, Cleaned, Split;
    SplitAppends(s, "");
    assert s + "/" + "" == s + "/";
    CleanedAppends(true, [], Split(s), [""]);
    EmptyPieces(true, []);
    RenderCleans(true, [], names);
    EmptyPiece(names);
    assert [] + names == names;
  }

  lemma EmptyPiece(names: seq<string>)
    ensures Cleaned(true, names, [""]) == names
  {
    assert [""][1..] == [];
  }

  /** The root is the only clean absolute path that is its own directory and base, which is how the
      cache recognizes it. */
  lemma OnlyRootIsItsOwnDir(names: seq<string>)
    requires AllNames(names)
    ensures Dir(Render(names)) == Base(Render(names)) <==> names == []
  {
    if names == [] {
      EmptyPieces(true, []);
      LastIsUnique("/", 1);
      assert "/"[..1] == "/" && "/"[..0] == "";
    } else {
      var last := |names| - 1;
      assert names == names[..last] + [names[last]];
      SplitsBack(names[..last], names[last]);
      assert Render(names[..last])[0] == '/';
    }
  }

  /** Different clean paths have different keys. */
  lemma {:induction false} RenderIsInjective(a: seq<string>, b: seq<string>)
    requires AllNames(a) && AllNames(b) && Render(a) == Render(b)
    ensures a == b
    decreases |a|
  {
    OnlyRootIsItsOwnDir(a);
    OnlyRootIsItsOwnDir(b);
    if a != [] {
      var m, n := |a| - 1, |b| - 1;
      assert a == a[..m] + [a[m]] && b == b[..n] + [b[n]];
      SplitsBack(a[..m], a[m]);
      SplitsBack(b[..n], b[n]);
      RenderIsInjective(a[..m], b[..n]);
    }
  }

  // ----- from the name a client uses to a device path -----

  /** `path.Join("/", root, name)`. */
  function DevicePath(root: string, name: string): string {
    Render(Cleaned(true, [], Split(root) + Split(name)))
  }

  /** Whatever root and name a path is joined from, dots, doubled slashes and all, it is a clean absolute
      path, the kind of which the statements above speak. */
  lemma DevicePathIsClean(root: string, name: string)
    ensures exists names :: AllNames(names) && DevicePath(root, name) == Render(names)
  {
    CleanedNames([], Split(root) + Split(name));
  }

  /** Under one root, client names that are clean, with or without their leading slash, meet in one device
      path only if they are the same: the path is the root's names followed by theirs. */
  lemma DevicePathsKeepApart(root: seq<string>, a: seq<string>, b: seq<string>)
    requires AllNames(root) && AllNames(a) && AllNames(b)
    ensures DevicePath(Render(root), Render(a)) == DevicePath(Render(root), Render(a)[1..]) == Render(root + a)
    ensures DevicePath(Render(root), Render(a)) == DevicePath(Render(root), Render(b)) <==> a == b
  {
    JoinsNames(root, a);
    JoinsNames(root, b);
    if Render(root + a) == Render(root + b) {
      RenderIsInjective(root + a, root + b);
      assert a == (root + a)[|root|..] && b == (root + b)[|root|..];
    }
  }

  lemma JoinsNames(root: seq<string>, a: seq<string>)
    requires AllNames(root) && AllNames(a)
    ensures DevicePath(Render(root), Render(a)) == DevicePath(Render(root), Render(a)[1..]) == Render(root + a)
  {
    var r, p := Split(Render(root)), Render(a);
    RenderCleans(true, [], root);
    RenderCleans(true, root, a);
    CleanedAppends(true, [], r, Split(p));
    CleanedAppends(true, [], r, Split(p[1..]));
    assert [] + root == root;
    assert Split(p) == [""] + Split(p[1..]);
    CleanedAppends(true, root, [""], Split(p[1..]));
    assert Cleaned(true, root, [""]) == Cleaned(true, root, []) == root;
  }

  // ----- relative names -----

  lemma {:induction false} CleanedPieces(rooted: bool, names: seq<string>, parts: seq<string>)
    requires (forall c | c in names :: c != "" && '/' !in c) && forall c | c in parts :: '/' !in c
    ensures forall c | c in Cleaned(rooted, names, parts) :: c != "" && '/' !in c
    decreases |parts|
  {
    if parts != [] {
      assert parts[0] in parts && forall c | c in parts[1..] :: c in parts;
      CleanedPieces(rooted, Entered(rooted, names, parts[0]), parts[1..]);
    }
  }

  lemma RenderStartsWithName(names: seq<string>)
    requires names != [] && names[0] != ""
    ensures |Render(names)| > 1 && Render(names)[1] == names[0][0]
    decreases |names|
  {
    if |names| > 1 {
      RenderStartsWithName(names[..|names| - 1]);
    }
  }

  /** The directory of a relative name, such as a link may give, is relative too: it is no key under which an
      absolute path was listed, so such a name is always asked of the device. */
  lemma RelativeNamesMiss(p: string)
    requires !IsRooted(p)
    ensures !IsRooted(Dir(p))
  {
    var q := p[..Last(p)];
    var names := Cleaned(false, [], Split(q));
    CleanedPieces(false, [], Split(q));
    if names != [] {
      assert names[0] in names && names[0][0] in names[0];
      RenderStartsWithName(names);
    }
  }

  /** A clean relative name is its own cleaning, and splits as an absolute one does. */
  lemma RelativeSplitsBack(names: seq<string>, c: string)
    requires AllNames(names) && IsName(c)
    ensures var p := Render(names + [c])[1..];
            Clean(p) == p && Base(p) == c && Dir(p) == if names == [] then "." else Render(names)[1..]
  {
    assert (names + [c])[..|names|] == names && AllNames(names + [c]);
    RelativeCleans(names + [c]);
    NothingIsDot();
    hide Clean, Dir, Base;
    if names == [] {
      assert Render([c])[1..] == "" + c;
      EndsIn("", c);
    } else {
      var dir := Render(names)[1..];
      RelativeCleans(names);
      assert Render(names + [c])[1..] == (dir + "/") + c;
      EndsIn(dir + "/", c);
      SlashIsNothing(dir);
    }
  }

  lemma NothingIsDot()
    ensures Clean("") == "."
  {
    EmptyPieces(false, []);
  }

  lemma EndsIn(s: string, c: string)
    requires IsName(c) && (s != "" ==> s[|s| - 1] == '/')
    ensures Base(s + c) == c && Dir(s + c) == Clean(s)
  {
    var p := s + c;
    assert p[|s|..] == c && p[..|s|] == s && p[|p| - 1] == c[|c| - 1] && c[|c| - 1] in c;
    LastIsUnique(p, |s|);
    assert Trimmed(p) == p;
  }

  lemma RelativeCleans(names: seq<string>)
    requires AllNames(names) && names != []
    ensures |Render(names)| > 1 && !IsRooted(Render(names)[1..]) && Clean(Render(names)[1..]) == Render(names)[1..]
  {
    var p := Render(names);
    assert names[0] in names && names[0][0] in names[0];
    RenderStartsWithName(names);
    RenderCleans(false, [], names);
    assert Split(p) == [""] + Split(p[1..]);
    hide Split, Cleaned, Render, IsName;
    CleanedAppends(false, [], [""], Split(p[1..]));
    PieceIsNothing(false, [], "");
    assert [] + names == names;
  }

  // ----- what cleaning does not change -----

  lemma PieceIsNothing(rooted: bool, names: seq<string>, c: string)
    requires c == "" || c == "."
    ensures Cleaned(rooted, names, [c]) == names
  {
    assert [c][1..] == [];
  }

  lemma AppendedPiece(p: string, c: string)
    requires p != "" && '/' !in c
    ensures IsRooted(p + "/" + c) == IsRooted(p)
    ensures Cleaned(IsRooted(p), [], Split(p + "/" + c)) ==
              Cleaned(IsRooted(p), Cleaned(IsRooted(p), [], Split(p)), [c])
  {
    SplitAppends(p, c);
    CleanedAppends(IsRooted(p), [], Split(p), [c]);
  }

  lemma SlashIsNothing(p: string)
    requires p != ""
    ensures Clean(p + "/") == Clean(p)
  {
    assert p + "/" + "" == p + "/";
    AppendedPiece(p, "");
    PieceIsNothing(IsRooted(p), Cleaned(IsRooted(p), [], Split(p)), "");
  }

  lemma DotIsNothing(p: string)
    requires p != ""
    ensures Clean(p + "/.") == Clean(p)
  {
    assert p + "/" + "." == p + "/.";
    AppendedPiece(p, ".");
    PieceIsNothing(IsRooted(p), Cleaned(IsRooted(p), [], Split(p)), ".");
  }

  /** Going down and up again is nothing. */
  lemma UpUndoesDown(p: string, c: string)
    requires p != "" && IsName(c)
    ensures Clean(p + "/" + c + "/..") == Clean(p)
  {
    var names := Cleaned(IsRooted(p), [], Split(p));
    AppendedPiece(p, c);
    NamesAreClean(IsRooted(p), names, [c]);
    AppendedPiece(p + "/" + c, "..");
    assert p + "/" + c + "/" + ".." == p + "/" + c + "/..";
    assert [".."][1..] == [] && (names + [c])[..|names|] == names;
    assert Cleaned(IsRooted(p), names + [c], [".."]) == names;
  }

  /** Above the root there is nothing. */
  lemma NothingAboveTheRoot()
    ensures Clean("/..") == "/"
  {
    SplitAppends("", "..");
    assert "" + "/" + ".." == "/.." && Split("") + [".."] == ["", ".."] && ["", ".."][1..] == [".."];
  }

  /** The slash that a configured root may end in makes no difference, and without a root a clean client name
      is its own device path. */
  lemma AnyRoot(root: string, name: string, names: seq<string>)
    requires AllNames(names)
    ensures DevicePath(root + "/", name) == DevicePath(root, name)
    ensures DevicePath("", Render(names)) == DevicePath("", Render(names)[1..]) == Render(names)
  {
    SplitAppends(root, "");
    assert root + "/" + "" == root + "/";
    CleanedAppends(true, [], Split(root), [""]);
    PieceIsNothing(true, Cleaned(true, [], Split(root)), "");
    CleanedAppends(true, [], Split(root + "/"), Split(name));
    CleanedAppends(true, [], Split(root), Split(name));
    EmptyPieces(true, []);
    CleanedAppends(true, [], Split("/"), Split(Render(names)));
    CleanedAppends(true, [], Split("/"), Split(Render(names)[1..]));
    CleanedAppends(true, [], Split(""), Split(Render(names)));
    CleanedAppends(true, [], Split(""), Split(Render(names)[1..]));
    JoinsNames([], names);
    assert [] + names == names;
  }
}
