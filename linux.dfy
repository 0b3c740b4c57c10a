/**
 * The simulated shell of tools/LinuxSimulator/linux_simulator.py.
 *
 * The file system is a Python dict from absolute paths to contents, `None` marking a
 * directory; a dict keeps its keys in insertion order, and that order decides what the
 * recursive `cp` and `mv` loops see, so it is a sequence of entries with distinct paths here
 * (`Lookup`, `Put`, `Remove`, `Without` are the dict operations the source uses). The terminal
 * is a class whose fields `run_command` updates in place.
 *
 * Three places of the source misbehave (see the Findings of the README); the terminal takes a
 * `fixed` flag: `false` is the code as written, `true` the corrected behaviour.
 */
module Linux {
  import opened Types
  import PyStr

  // ---------------------------------------------------------------- the ordered dict

  /** A dict value: `None` for a directory, the text for a file. */
  datatype Node = Dir | File(text: string)

  datatype Entry = Entry(path: string, node: Node)

  /** Dict keys are unique: no key comes back after its entry. */
  ghost predicate Distinct(fs: seq<Entry>)
    decreases |fs|
  {
    fs == [] || (!Has(fs[1..], fs[0].path) && Distinct(fs[1..]))
  }

  /** `fs.get(p)`: the value stored under `p`, if any. */
  function Lookup(fs: seq<Entry>, p: string): (r: Option<Node>)
    ensures r.Some? <==> exists i :: 0 <= i < |fs| && fs[i].path == p
    ensures r.Some? ==> Entry(p, r.value) in fs
  {
    if fs == [] then None
    else if fs[0].path == p then Some(fs[0].node)
    else
      var r := Lookup(fs[1..], p);
      assert forall i :: 1 <= i < |fs| ==> fs[i] == fs[1..][i - 1];
      assert r.Some? ==> exists i :: 0 <= i < |fs[1..]| && fs[1..][i].path == p;
      r
  }

  /** `p in fs` */
  predicate Has(fs: seq<Entry>, p: string)
  {
    Lookup(fs, p).Some?
  }

  /** Unique keys: no two entries share a key. */
  lemma {:induction false} DistinctIndex(fs: seq<Entry>)
    ensures Distinct(fs) <==> forall i, j :: 0 <= i < j < |fs| ==> fs[i].path != fs[j].path
    decreases |fs|
  {
    if fs != [] {
      var t := fs[1..];
      DistinctIndex(t);
      assert forall k :: 0 <= k < |t| ==> t[k] == fs[k + 1];
      if Distinct(fs) {
        forall i, j | 0 <= i < j < |fs|
          ensures fs[i].path != fs[j].path
        {
          if i == 0 {
            assert t[j - 1].path == fs[j].path;
          }
        }
      }
    }
  }

  /** In a dict with unique keys, every entry is what its key looks up. */
  lemma {:induction false} LookupAt(fs: seq<Entry>, i: int)
    requires Distinct(fs) && 0 <= i < |fs|
    ensures Lookup(fs, fs[i].path) == Some(fs[i].node)
  {
    if i > 0 {
      assert fs[1..][i - 1] == fs[i];
      LookupAt(fs[1..], i - 1);
    }
  }

  /** `fs[p] = v`: an existing key keeps its place, a new key goes last. */
  function Put(fs: seq<Entry>, p: string, v: Node): (r: seq<Entry>)
    ensures forall q :: Lookup(r, q) == if q == p then Some(v) else Lookup(fs, q)
    ensures Has(fs, p) ==> |r| == |fs| && forall i :: 0 <= i < |fs| ==> r[i].path == fs[i].path
    ensures !Has(fs, p) ==> r == fs + [Entry(p, v)]
  {
    if fs == [] then [Entry(p, v)]
    else if fs[0].path == p then [Entry(p, v)] + fs[1..]
    else [fs[0]] + Put(fs[1..], p, v)
  }

  /** `del fs[p]` (and the removal half of `fs.pop(p)`): the other entries keep their order. */
  function Remove(fs: seq<Entry>, p: string): (r: seq<Entry>)
    ensures forall q :: Lookup(r, q) == if q == p then None else Lookup(fs, q)
    ensures forall e :: e in r <==> e in fs && e.path != p
  {
    if fs == [] then []
    else if fs[0].path == p then Remove(fs[1..], p)
    else [fs[0]] + Remove(fs[1..], p)
  }

  /** `{p: v for p, v in fs.items() if not p.startswith(prefix)}` */
  function Without(fs: seq<Entry>, prefix: string): (r: seq<Entry>)
    ensures forall q :: Lookup(r, q) == if PyStr.StartsWith(q, prefix) then None else Lookup(fs, q)
    ensures forall e :: e in r <==> e in fs && !PyStr.StartsWith(e.path, prefix)
  {
    if fs == [] then []
    else if PyStr.StartsWith(fs[0].path, prefix) then Without(fs[1..], prefix)
    else [fs[0]] + Without(fs[1..], prefix)
  }

  /** A value put in front of a list whose paths differ from its own keeps keys unique. */
  lemma ConsDistinct(e: Entry, t: seq<Entry>)
    requires Distinct(t) && forall x :: x in t ==> x.path != e.path
    ensures Distinct([e] + t)
  {
    assert ([e] + t)[1..] == t;
  }

  /** The first entry's key appears nowhere after it. */
  lemma DistinctTail(fs: seq<Entry>)
    requires Distinct(fs) && fs != []
    ensures Distinct(fs[1..]) && forall x :: x in fs[1..] ==> x.path != fs[0].path
  {
  }

  lemma {:induction false} PutDistinct(fs: seq<Entry>, p: string, v: Node)
    requires Distinct(fs)
    ensures Distinct(Put(fs, p, v))
  {
    var r := Put(fs, p, v);
    DistinctIndex(fs);
    DistinctIndex(r);
    if Has(fs, p) {
      forall i, j | 0 <= i < j < |r|
        ensures r[i].path != r[j].path
      {
        assert r[i].path == fs[i].path && r[j].path == fs[j].path;
      }
    } else {
      forall i, j | 0 <= i < j < |r|
        ensures r[i].path != r[j].path
      {
        if j == |fs| {
          assert r[i] == fs[i];
        } else {
          assert r[i] == fs[i] && r[j] == fs[j];
        }
      }
    }
  }

  lemma {:induction false} RemoveDistinct(fs: seq<Entry>, p: string)
    requires Distinct(fs)
    ensures Distinct(Remove(fs, p))
    decreases |fs|
  {
    if fs != [] {
      DistinctTail(fs);
      RemoveDistinct(fs[1..], p);
      if fs[0].path != p {
        ConsDistinct(fs[0], Remove(fs[1..], p));
      }
    }
  }

  lemma {:induction false} WithoutDistinct(fs: seq<Entry>, prefix: string)
    requires Distinct(fs)
    ensures Distinct(Without(fs, prefix))
    decreases |fs|
  {
    if fs != [] {
      DistinctTail(fs);
      WithoutDistinct(fs[1..], prefix);
      if !PyStr.StartsWith(fs[0].path, prefix) {
        ConsDistinct(fs[0], Without(fs[1..], prefix));
      }
    }
  }

  // ---------------------------------------------------------------- paths

  const Home: string := "/home/user"

  /** `p if p.endswith("/") else p + "/"` */
  function DirPrefix(p: string): (r: string)
    ensures PyStr.EndsWith(r, "/") && PyStr.StartsWith(r, p)
  {
    if PyStr.EndsWith(p, "/") then p
    else
      assert (p + "/")[..|p|] == p;
      p + "/"
  }

  /** The `..` case of `_get_full_path`: drop the last component, or stay at `/`. */
  function Parent(cwd: string): (r: string)
    ensures PyStr.StartsWith(r, "/")
  {
    if cwd == "/" then "/"
    else
      var parts := PyStr.SplitOn(PyStr.Strip(cwd, {'/'}), '/');
      if |parts| > 1 then "/" + PyStr.Join(parts[..|parts| - 1], "/") else "/"
  }

  /** `_get_full_path(target)` with `cwd` the current path. */
  function FullPath(cwd: string, target: string): string
  {
    if PyStr.StartsWith(target, "/") then target
    else if target == "~" then Home
    else if target == ".." then Parent(cwd)
    else if target == "." then cwd
    else DirPrefix(cwd) + target
  }

  /** From an absolute current path every target resolves to an absolute path. */
  lemma FullPathAbsolute(cwd: string, target: string)
    requires PyStr.StartsWith(cwd, "/")
    ensures PyStr.StartsWith(FullPath(cwd, target), "/")
  {
    if !PyStr.StartsWith(target, "/") && target !in {"~", "..", "."} {
      var d := DirPrefix(cwd);
      assert d[..1] == cwd[..1];
      assert (d + target)[..1] == d[..1];
    }
  }

  /** An absolute path that names a directory as the shell keeps it: one leading `/`, no trailing one. */
  predicate Clean(cwd: string)
  {
    cwd == "/" || (|cwd| > 1 && cwd[0] == '/' && cwd[1] != '/' && cwd[|cwd| - 1] != '/')
  }

  /** A name that `_get_full_path` appends to the current path. */
  predicate Component(name: string)
  {
    name != [] && '/' !in name && name !in {".", "..", "~"}
  }

  /** Joining a list with one more piece. */
  lemma {:induction false} JoinSnoc(xs: seq<string>, y: string, sep: string)
    requires |xs| >= 1
    ensures PyStr.Join(xs + [y], sep) == PyStr.Join(xs, sep) + sep + y
    decreases |xs|
  {
    if |xs| == 1 {
      assert PyStr.Join(xs + [y], sep) == xs[0] + sep + PyStr.Join([y], sep);
    } else {
      assert (xs + [y])[1..] == xs[1..] + [y];
      JoinSnoc(xs[1..], y, sep);
    }
  }

  /** `s.lstrip("/")` drops exactly one leading slash when a second one does not follow. */
  lemma LStripOne(s: string)
    requires |s| >= 2 && s[0] == '/' && s[1] != '/'
    ensures PyStr.LStrip(s, {'/'}) == s[1..]
  {
    assert s[1..][0] == s[1];
  }

  /** `s.rstrip("/")` leaves a string that does not end with a slash alone. */
  lemma RStripNone(s: string)
    requires s == [] || s[|s| - 1] != '/'
    ensures PyStr.RStrip(s, {'/'}) == s
  {
  }

  /** `x.strip("/")` of `"/" + m` when `m` neither starts nor ends with `/`. */
  lemma StripInner(m: string)
    requires m != [] && m[0] != '/' && m[|m| - 1] != '/'
    ensures PyStr.Strip("/" + m, {'/'}) == m
  {
    var s := "/" + m;
    assert s[1..] == m && s[1] == m[0];
    LStripOne(s);
    RStripNone(m);
  }

  /** The parent of `/name` is the root. */
  lemma ParentRoot(name: string)
    requires Component(name)
    ensures Parent("/" + name) == "/"
  {
    assert name[0] != '/' && name[0] in name;
    assert name[|name| - 1] in name;
    StripInner(name);
    assert PyStr.SplitOn(name, '/') == [name];
  }

  /** Splitting `a + "/" + name` at slashes gives the pieces of `a`, then `name`. */
  lemma SplitSnoc(a: string, name: string)
    requires '/' !in name
    ensures PyStr.SplitOn(a + "/" + name, '/') == PyStr.SplitOn(a, '/') + [name]
  {
    var pieces := PyStr.SplitOn(a, '/');
    var parts := pieces + [name];
    forall k | 0 <= k < |parts|
      ensures '/' !in parts[k]
    {
      if k < |pieces| {
        assert parts[k] == pieces[k];
      }
    }
    JoinSnoc(pieces, name, "/");
    PyStr.SplitJoin(parts, '/');
  }

  /** Stripping the slashes of `/a/name` leaves `a/name`. */
  lemma StripChild(a: string, name: string)
    requires a != [] && a[0] != '/' && Component(name)
    ensures PyStr.Strip("/" + a + "/" + name, {'/'}) == a + "/" + name
  {
    var m := a + "/" + name;
    assert "/" + a + "/" + name == "/" + m;
    assert m[0] == a[0];
    assert name[|name| - 1] in name;
    assert m[|m| - 1] == name[|name| - 1];
    StripInner(m);
  }

  /** `Parent` when the stripped path has more than one piece. */
  lemma ParentBySplit(cwd: string, m: string, parts: seq<string>)
    requires cwd != "/" && PyStr.Strip(cwd, {'/'}) == m && PyStr.SplitOn(m, '/') == parts && |parts| > 1
    ensures Parent(cwd) == "/" + PyStr.Join(parts[..|parts| - 1], "/")
  {
  }

  /** The parent of `/a/name` is `/a`. */
  lemma ParentInner(a: string, name: string)
    requires a != [] && a[0] != '/' && Component(name)
    ensures Parent("/" + a + "/" + name) == "/" + a
  {
    StripChild(a, name);
    var m := a + "/" + name;
    var pieces := PyStr.SplitOn(a, '/');
    SplitSnoc(a, name);
    assert |"/" + a + "/" + name| > 1;
    ParentBySplit("/" + a + "/" + name, m, pieces + [name]);
    assert (pieces + [name])[..|pieces|] == pieces;
  }

  /**
   * `cd name` followed by `cd ..` comes back: the parent of a child of a clean path is that
   * path.
   */
  lemma ChildParent(cwd: string, name: string)
    requires Clean(cwd) && Component(name)
    ensures FullPath(FullPath(cwd, name), "..") == cwd
  {
    assert name[0] != '/' && name[0] in name;
    assert !PyStr.StartsWith(name, "/");
    if cwd == "/" {
      assert FullPath(cwd, name) == "/" + name;
      ParentRoot(name);
    } else {
      var a := cwd[1..];
      assert cwd == "/" + a;
      assert cwd[|cwd| - 1] != '/';
      assert FullPath(cwd, name) == "/" + a + "/" + name;
      ParentInner(a, name);
    }
  }

  // ---------------------------------------------------------------- replies and the initial state

  /**
   * What `run_command` hands back: a string, the dict that opens the interactive editor, the
   * clock reading of `date`, or an exception that escapes it.
   */
  datatype Reply =
    | Text(s: string)
    | NanoEdit(filename: string, fullPath: string, content: string)
    | Now
    | Uncaught(error: string)

  /** The dict `__init__` starts from. */
  const InitialFs: seq<Entry> := [
    Entry("/home/user/", Dir),
    Entry("/home/user/README.md", File("# TechHub Linux Simulator\nWelcome to the simulation!")),
    Entry("/home/user/app.py", File("print('Hello TechHub')")),
    Entry("/home/user/BHOS.txt", File("Baku Higher Oil School")),
    Entry("/home/user/docs/", Dir),
    Entry("/home/user/docs/notes.txt", File("Don't forget to study Linux commands."))
  ]

  // ---------------------------------------------------------------- ls

  /** What `ls` shows of a key below its directory: no slash, or only a trailing one. */
  predicate Child(rel: string)
  {
    rel != [] && ('/' !in rel || (PyStr.CountChar(rel, '/') == 1 && PyStr.EndsWith(rel, "/")))
  }

  /** The test of the `ls` loop on one key `p` for the directory `dir`. */
  predicate Listed(p: string, dir: string)
  {
    PyStr.StartsWith(p, dir) && p != dir && Child(p[|dir|..])
  }

  /** What the `ls` loop collects from the key `p`: its name relative to `dir`, or nothing. */
  function Listing(p: string, dir: string): seq<string>
  {
    if Listed(p, dir) then [p[|dir|..]] else []
  }

  /** The names the `ls` loop collects, in dict order. */
  function LsNames(fs: seq<Entry>, dir: string): seq<string>
  {
    if fs == [] then [] else Listing(fs[0].path, dir) + LsNames(fs[1..], dir)
  }

  /** A key below `dir` is `dir` followed by its relative name. */
  lemma Below(p: string, dir: string, x: string)
    ensures PyStr.StartsWith(p, dir) && p[|dir|..] == x <==> p == dir + x
  {
    if p == dir + x {
      assert p[..|dir|] == dir && p[|dir|..] == x;
    }
    if PyStr.StartsWith(p, dir) && p[|dir|..] == x {
      assert p == p[..|dir|] + p[|dir|..];
    }
  }

  /** `ls` of a directory lists exactly the names one level below it that are keys. */
  lemma {:induction false} LsNamesIff(fs: seq<Entry>, dir: string, x: string)
    ensures x in LsNames(fs, dir) <==> Has(fs, dir + x) && Child(x)
    decreases |fs|
  {
    if fs != [] {
      LsNamesIff(fs[1..], dir, x);
      Below(fs[0].path, dir, x);
      assert Has(fs, dir + x) <==> fs[0].path == dir + x || Has(fs[1..], dir + x) by {
        if Has(fs, dir + x) && fs[0].path != dir + x {
          var i :| 0 <= i < |fs| && fs[i].path == dir + x;
          assert fs[1..][i - 1] == fs[i];
        }
        if Has(fs[1..], dir + x) {
          var i :| 0 <= i < |fs[1..]| && fs[1..][i].path == dir + x;
          assert fs[i + 1] == fs[1..][i];
        }
      }
    }
  }

  /** The directory `ls` looks at: the current one, or its first argument resolved. */
  function LsDir(cwd: string, args: seq<string>): string
  {
    DirPrefix(if args == [] then cwd else FullPath(cwd, args[0]))
  }

  /**
   * The answer of `ls`. When nothing is listed and neither the directory key nor the path
   * without its slashes exists, the source formats `arguments[0]` into the message, which
   * raises IndexError when `ls` had no argument; the corrected answer names the directory.
   */
  function LsReply(names: seq<string>, fs: seq<Entry>, dir: string, args: seq<string>, fixed: bool): Reply
  {
    if names == [] && !Has(fs, dir) && !Has(fs, PyStr.RStrip(dir, {'/'})) then
      if args != [] then Text("ls: cannot access '" + args[0] + "': No such file or directory")
      else if fixed then Text("ls: cannot access '" + dir + "': No such file or directory")
      else Uncaught("IndexError")
    else Text(PyStr.Join(PyStr.SortStrs(names), " "))
  }

  /** With the correction `ls` always answers with text. */
  lemma LsAnswers(fs: seq<Entry>, cwd: string, args: seq<string>)
    ensures LsReply(LsNames(fs, LsDir(cwd, args)), fs, LsDir(cwd, args), args, true).Text?
  {
  }

  /**
   * As written, `cd /` followed by a bare `ls` raises: no key is one level below `/` (the
   * dict holds no `/home/` key) and neither `/` nor the empty path is a key.
   */
  lemma LsRaisesAtRoot()
    ensures LsReply(LsNames(InitialFs, LsDir("/", [])), InitialFs, LsDir("/", []), [], false) == Uncaught("IndexError")
  {
    assert LsDir("/", []) == "/";
    assert PyStr.RStrip("/", {'/'}) == "";
    NothingBelowRoot();
    LsMissing(InitialFs, "/", "");
  }

  /** Nothing listed and neither form of the directory a key: `ls` takes its error branch. */
  lemma LsMissing(fs: seq<Entry>, dir: string, bare: string)
    requires forall i :: 0 <= i < |fs| ==> !Listed(fs[i].path, dir) && fs[i].path != dir && fs[i].path != bare
    ensures LsNames(fs, dir) == [] && !Has(fs, dir) && !Has(fs, bare)
  {
    LsNamesNone(fs, dir);
  }

  /** Every key of the initial dict lies two levels or more below `/`. */
  lemma NothingBelowRoot()
    ensures forall i :: 0 <= i < |InitialFs| ==>
      !Listed(InitialFs[i].path, "/") && InitialFs[i].path != "/" && InitialFs[i].path != ""
  {
    forall i | 0 <= i < |InitialFs|
      ensures !Listed(InitialFs[i].path, "/")
    {
      TwoSlashes(InitialFs[i].path[1..]);
    }
  }

  /** No key listed: `ls` collects nothing. */
  lemma {:induction false} LsNamesNone(fs: seq<Entry>, dir: string)
    requires forall i :: 0 <= i < |fs| ==> !Listed(fs[i].path, dir)
    ensures LsNames(fs, dir) == []
    decreases |fs|
  {
    if fs != [] {
      assert forall i :: 0 <= i < |fs[1..]| ==> fs[1..][i] == fs[i + 1];
      LsNamesNone(fs[1..], dir);
    }
  }

  /** A name with slashes at positions 4 and 9 (as in `home/user/...`) is not one level down. */
  lemma TwoSlashes(x: string)
    requires |x| >= 10 && x[4] == '/' && x[9] == '/'
    ensures !Child(x)
  {
    assert x == x[..5] + x[5..];
    assert x[..5][4] == '/' && x[5..][4] == '/';
    CountSplit(x[..5], x[5..], '/');
    if PyStr.EndsWith(x, "/") {
      assert x[|x| - 1] == '/';
    }
  }

  /** Counting a character over a concatenation. */
  lemma {:induction false} CountSplit(a: string, b: string, c: char)
    ensures PyStr.CountChar(a + b, c) == PyStr.CountChar(a, c) + PyStr.CountChar(b, c)
    decreases |a|
  {
    if a != [] {
      assert (a + b)[0] == a[0] && (a + b)[1..] == a[1..] + b;
      CountSplit(a[1..], b, c);
    } else {
      assert a + b == b;
    }
  }

  // ---------------------------------------------------------------- find

  /** `xs.index(x)`: the first position of `x`. */
  function FirstIndex(xs: seq<string>, x: string): (k: nat)
    requires x in xs
    ensures k < |xs| && xs[k] == x && x !in xs[..k]
  {
    if xs[0] == x then 0
    else
      var k := 1 + FirstIndex(xs[1..], x);
      assert xs[..k] == [xs[0]] + xs[1..][..k - 1];
      k
  }

  /** The name after the first `-name`, without surrounding quotes, if there is one. */
  function NameFilter(args: seq<string>): (r: Option<string>)
    ensures r.Some? ==> "-name" in args
  {
    if "-name" in args then
      var idx := FirstIndex(args, "-name");
      if idx + 1 < |args| then Some(PyStr.Strip(PyStr.Strip(args[idx + 1], {'"'}), {'\''})) else None
    else None
  }

  /** `p.rstrip("/").split("/")[-1]`: the last component of a key. */
  function BaseName(p: string): string
  {
    var parts := PyStr.SplitOn(PyStr.RStrip(p, {'/'}), '/');
    parts[|parts| - 1]
  }

  /** The test of the `find` loop: below the search path, or the path itself, and with the name asked for. */
  predicate Found(p: string, path: string, filter: Option<string>)
  {
    (PyStr.StartsWith(p, DirPrefix(path)) || p == path)
    && (filter == None || filter.value == "" || BaseName(p) == filter.value)
  }

  /** The keys the `find` loop collects, in dict order. */
  function FindNames(fs: seq<Entry>, path: string, filter: Option<string>): seq<string>
  {
    if fs == [] then []
    else (if Found(fs[0].path, path, filter) then [fs[0].path] else []) + FindNames(fs[1..], path, filter)
  }

  /** `find` reports exactly the keys at or below its path whose last component matches. */
  lemma {:induction false} FindNamesIff(fs: seq<Entry>, path: string, filter: Option<string>, x: string)
    ensures x in FindNames(fs, path, filter) <==> Has(fs, x) && Found(x, path, filter)
    decreases |fs|
  {
    if fs != [] {
      FindNamesIff(fs[1..], path, filter, x);
      HasCons(fs, x);
    }
  }

  /** A key is the first one or a key of the rest. */
  lemma HasCons(fs: seq<Entry>, x: string)
    requires fs != []
    ensures Has(fs, x) <==> fs[0].path == x || Has(fs[1..], x)
  {
    if Has(fs, x) && fs[0].path != x {
      var i :| 0 <= i < |fs| && fs[i].path == x;
      assert fs[1..][i - 1] == fs[i];
    }
    if Has(fs[1..], x) {
      var i :| 0 <= i < |fs[1..]| && fs[1..][i].path == x;
      assert fs[i + 1] == fs[1..][i];
    }
  }

  // ---------------------------------------------------------------- the commands that only answer

  /** The reply of `cat`: the text of a file, or why there is none. */
  function CatReply(fs: seq<Entry>, cwd: string, args: seq<string>): Reply
  {
    if args == [] then Text("usage: cat <file>")
    else
      var p := FullPath(cwd, args[0]);
      match Lookup(fs, p)
      case Some(File(t)) => Text(t)
      case _ =>
        if Has(fs, p + "/") then Text("cat: " + args[0] + ": Is a directory")
        else Text("cat: " + args[0] + ": No such file or directory")
  }

  /** The text of the command list in the unknown-command message. */
  const Available: string := "ls, pwd, touch, mkdir, rm, echo, date, clear, exit, history, cat, whoami, uname, cp, mv, find, man, nano"

  /** The branches of the `if`/`elif` chain of `run_command`, one per command word. */
  datatype Cmd =
    | History | Ls | Pwd | Cd | Touch | Mkdir | Rm | Cat | Whoami | Uname
    | Cp | Mv | Find | Man | Nano | Echo | Date | Clear | Exit
    | Unknown(word: string)

  /** A branch that a command word names. */
  type Named = c: Cmd | !c.Unknown? witness History

  /** The command word of a branch. */
  function Name(c: Cmd): string
  {
    match c
    case History => "history" case Ls => "ls" case Pwd => "pwd" case Cd => "cd"
    case Touch => "touch" case Mkdir => "mkdir" case Rm => "rm" case Cat => "cat"
    case Whoami => "whoami" case Uname => "uname" case Cp => "cp" case Mv => "mv"
    case Find => "find" case Man => "man" case Nano => "nano" case Echo => "echo"
    case Date => "date" case Clear => "clear" case Exit => "exit"
    case Unknown(w) => w
  }

  /** Every command word `run_command` dispatches on. */
  const Handled: set<string> := {"history", "ls", "pwd", "cd", "touch", "mkdir", "rm", "cat", "whoami", "uname",
    "cp", "mv", "find", "man", "nano", "echo", "date", "clear", "exit"}

  /** The commands the unknown-command message lists, in order. */
  const Offered: seq<Named> := [Ls, Pwd, Touch, Mkdir, Rm, Echo, Date, Clear, Exit,
    History, Cat, Whoami, Uname, Cp, Mv, Find, Man, Nano]

  /** The unknown-command message offers every handled command except `cd`. */
  lemma OfferedCoverage()
    ensures forall c: Named :: c in Offered <==> c != Cd
  {
    forall c: Named | c != Cd ensures c in Offered {
      OfferedHas(c);
    }
    assert Cd !in Offered;
  }

  /** Where the message offers a command other than `cd`. */
  lemma OfferedHas(c: Named)
    requires c != Cd
    ensures c in Offered
  {
    match c
    case Ls => assert Offered[0] == c;
    case Pwd => assert Offered[1] == c;
    case Touch => assert Offered[2] == c;
    case Mkdir => assert Offered[3] == c;
    case Rm => assert Offered[4] == c;
    case Echo => assert Offered[5] == c;
    case Date => assert Offered[6] == c;
    case Clear => assert Offered[7] == c;
    case Exit => assert Offered[8] == c;
    case History => assert Offered[9] == c;
    case Cat => assert Offered[10] == c;
    case Whoami => assert Offered[11] == c;
    case Uname => assert Offered[12] == c;
    case Cp => assert Offered[13] == c;
    case Mv => assert Offered[14] == c;
    case Find => assert Offered[15] == c;
    case Man => assert Offered[16] == c;
    case Nano => assert Offered[17] == c;
  }

  /** The lines `history` prints for `cmds`, numbered from `first` on. */
  function Numbered(cmds: seq<string>, first: nat): (r: seq<string>)
    ensures |r| == |cmds|
  {
    if cmds == [] then [] else [PyStr.NatToStr(first) + " " + cmds[0]] + Numbered(cmds[1..], first + 1)
  }

  /** The numbered lines of `history`, one per recorded command. */
  function HistoryLines(history: seq<string>): seq<string>
  {
    Numbered(history, 1)
  }

  /** Line `i` of the numbered list shows number `first + i` and command `i`. */
  lemma {:induction false} NumberedAt(cmds: seq<string>, first: nat, i: nat)
    requires i < |cmds|
    ensures Numbered(cmds, first)[i] == PyStr.NatToStr(first + i) + " " + cmds[i]
  {
    if i > 0 {
      NumberedAt(cmds[1..], first + 1, i - 1);
    }
  }

  /** `history` shows every recorded command, in order, numbered from 1. */
  lemma HistoryLinesAt(history: seq<string>, i: nat)
    requires i < |history|
    ensures |HistoryLines(history)| == |history|
    ensures HistoryLines(history)[i] == PyStr.NatToStr(i + 1) + " " + history[i]
  {
    NumberedAt(history, 1, i);
  }

  /** The branch of the `if`/`elif` chain a command word takes. */
  function Parse(w: string): Cmd
  {
    if w == "history" then History else
    if w == "ls" then Ls else
    if w == "pwd" then Pwd else
    if w == "cd" then Cd else
    if w == "touch" then Touch else
    if w == "mkdir" then Mkdir else
    if w == "rm" then Rm else
    if w == "cat" then Cat else
    if w == "whoami" then Whoami else
    if w == "uname" then Uname else
    if w == "cp" then Cp else
    if w == "mv" then Mv else
    if w == "find" then Find else
    if w == "man" then Man else
    if w == "nano" then Nano else
    if w == "echo" then Echo else
    if w == "date" then Date else
    if w == "clear" then Clear else
    if w == "exit" then Exit else
    Unknown(w)
  }

  /** Parsing keeps the word, and a word takes a named branch exactly when the shell handles it. */
  lemma ParseName(w: string)
    ensures Name(Parse(w)) == w
    ensures Parse(w).Unknown? <==> w !in Handled
  {
  }

  /** Only the word "man" takes the branch `man`. */
  lemma ParseMan(w: string)
    ensures Parse(w).Man? <==> w == "man"
  {
  }

  /** The manual page `man` shows for a command word, through the branch the word takes. */
  function Manual(c: Cmd): Option<string>
  {
    if c.Man? || c.Unknown? then None else Some(Page(c))
  }

  /** The text of a manual page. */
  function Page(c: Named): string
    requires !c.Man?
  {
    match c
    case Ls => "ls - list directory contents"
    case Cd => "cd - change the shell working directory"
    case Pwd => "pwd - print name of current/working directory"
    case Cat => "cat - concatenate files and print on the standard output"
    case Touch => "touch - change file timestamps / create empty files"
    case Mkdir => "mkdir - make directories"
    case Rm => "rm - remove files or directories"
    case Cp => "cp - copy files and directories"
    case Mv => "mv - move (rename) files"
    case Whoami => "whoami - print effective userid"
    case Uname => "uname - print system information"
    case Find => "find - search for files in a directory hierarchy"
    case Nano => "nano - Nano's ANOther editor, an enhanced free Pico clone"
    case Echo => "echo - display a line of text"
    case History => "history - GNU History Library"
    case Clear => "clear - clear the terminal screen"
    case Exit => "exit - cause the shell to exit"
    case Date => "date - print or set the system date and time"
  }

  /** Only the branch `man` is named "man". */
  lemma NamedMan(c: Named)
    requires Name(c) == "man"
    ensures c == Man
  {
  }

  /**
   * The dict of manual pages has an entry for every command word the shell handles except
   * `man`, and for no other word.
   */
  lemma ManualCoverage(w: string)
    ensures Manual(Parse(w)).Some? <==> w in Handled && w != "man"
  {
    ParseName(w);
    ParseMan(w);
  }

  /** The commands that may write to the dict. */
  predicate Writes(c: Cmd)
  {
    c.Touch? || c.Mkdir? || c.Rm? || c.Cp? || c.Mv? || c.Nano?
  }

  /** The commands whose reply depends on the state alone, without a loop. */
  predicate Reads(c: Cmd)
  {
    !Writes(c) && !c.Ls? && !c.Cd? && !c.Find?
  }

  /**
   * The reply of the commands that only read the state: `history`, `pwd`, `cat`, `whoami`,
   * `uname`, `man`, `echo`, `date` (the clock reading is the `Now` marker), `clear`, `exit`
   * and any command the shell does not know.
   */
  function Answer(fs: seq<Entry>, cwd: string, history: seq<string>, c: Cmd, args: seq<string>): Reply
    requires Reads(c)
  {
    match c
    case History => Text(PyStr.Join(HistoryLines(history), "\n"))
    case Pwd => Text(cwd)
    case Cat => CatReply(fs, cwd, args)
    case Whoami => Text("user")
    case Uname =>
      Text(if args != [] && args[0] == "-a" then "Linux techhub 5.15.0-generic #1 SMP x86_64 GNU/Linux" else "Linux")
    case Man =>
      Text(if args == [] then "What manual page do you want?"
           else match Manual(Parse(args[0]))
                case Some(page) => page
                case None => "No manual entry for " + args[0])
    case Echo => Text(PyStr.Join(args, " "))
    case Date => Now
    case Clear => Text("")
    case Exit => Text("__exit__")
    case Unknown(w) => Text("'" + w + "' command not found. Available commands: " + Available)
  }

  // ---------------------------------------------------------------- recursive cp and mv

  /**
   * The new key of `p` when the directory `src` is copied or moved to `dst`. The source calls
   * `p.replace(src, dst)`, which rewrites every occurrence of `src` in `p`; the corrected
   * rename rewrites only the leading one.
   */
  function Rename(p: string, src: string, dst: string, fixed: bool): string
    requires PyStr.StartsWith(p, src)
  {
    if fixed then dst + p[|src|..] else PyStr.Replace(p, src, dst)
  }

  /** When `src` does not occur again after the leading one, both renames agree. */
  lemma RenameAgrees(p: string, src: string, dst: string)
    requires PyStr.StartsWith(p, src) && |src| > 0 && !PyStr.Occurs(p[|src|..], src)
    ensures Rename(p, src, dst, false) == Rename(p, src, dst, true)
  {
    PyStr.ReplaceAbsent(p[|src|..], src, dst);
  }

  /** As written, moving `/a/` to `/b/` turns the key `/a/x/a/` into `/b/x/b/`, not `/b/x/a/`. */
  lemma RenameRewritesInner()
    ensures Rename("/a/x/a/", "/a/", "/b/", false) == "/b/x/b/"
    ensures Rename("/a/x/a/", "/a/", "/b/", true) == "/b/x/a/"
  {
    var src, dst := "/a/", "/b/";
    assert PyStr.Replace("", src, dst) == "";
    assert PyStr.Replace("/a/", src, dst) == "/b/" by {
      assert PyStr.StartsWith("/a/", src);
      assert "/a/"[3..] == "";
    }
    assert PyStr.Replace("x/a/", src, dst) == "x/b/" by {
      assert "x/a/"[0] != src[0];
      assert "x/a/"[1..] == "/a/";
    }
    assert "/a/x/a/"[3..] == "x/a/";
  }

  /** Renamed keys are different for different keys below `src`. */
  lemma RenameInjective(p: string, q: string, src: string, dst: string)
    requires PyStr.StartsWith(p, src) && PyStr.StartsWith(q, src) && p != q
    ensures Rename(p, src, dst, true) != Rename(q, src, dst, true)
  {
    var a, b := p[|src|..], q[|src|..];
    assert p == src + a && q == src + b;
    assert (dst + a)[|dst|..] == a && (dst + b)[|dst|..] == b;
  }

  /** With neither directory inside the other, a renamed key is no longer below `src`. */
  lemma RenameLeaves(p: string, src: string, dst: string)
    requires PyStr.StartsWith(p, src)
    requires !PyStr.StartsWith(dst, src) && !PyStr.StartsWith(src, dst)
    ensures !PyStr.StartsWith(Rename(p, src, dst, true), src)
  {
    var r := dst + p[|src|..];
    if |src| <= |dst| {
      assert r[..|src|] == dst[..|src|];
    } else if |src| <= |r| {
      assert r[..|src|][..|dst|] == dst;
    }
  }

  /** Directories that are not inside one another. */
  predicate Apart(src: string, dst: string)
  {
    !PyStr.StartsWith(dst, src) && !PyStr.StartsWith(src, dst)
  }

  /** The `cp -r` loop over the snapshot `items`: each entry below `src` is written under its new key. */
  function CopyFrom(acc: seq<Entry>, items: seq<Entry>, src: string, dst: string, fixed: bool): seq<Entry>
    decreases |items|
  {
    if items == [] then acc
    else
      var acc' := if PyStr.StartsWith(items[0].path, src)
        then Put(acc, Rename(items[0].path, src, dst, fixed), items[0].node) else acc;
      CopyFrom(acc', items[1..], src, dst, fixed)
  }

  /** `cp -r` never drops a key. */
  lemma {:induction false} CopyKeeps(acc: seq<Entry>, items: seq<Entry>, src: string, dst: string, fixed: bool, q: string)
    requires Has(acc, q)
    ensures Has(CopyFrom(acc, items, src, dst, fixed), q)
    decreases |items|
  {
    if items != [] {
      var acc' := if PyStr.StartsWith(items[0].path, src)
        then Put(acc, Rename(items[0].path, src, dst, fixed), items[0].node) else acc;
      CopyKeeps(acc', items[1..], src, dst, fixed, q);
    }
  }

  /** A key that no copied entry is renamed to keeps its value. */
  lemma {:induction false} CopyOutside(acc: seq<Entry>, items: seq<Entry>, src: string, dst: string, fixed: bool, q: string)
    requires forall i :: 0 <= i < |items| && PyStr.StartsWith(items[i].path, src) ==> Rename(items[i].path, src, dst, fixed) != q
    ensures Lookup(CopyFrom(acc, items, src, dst, fixed), q) == Lookup(acc, q)
    decreases |items|
  {
    if items != [] {
      var acc' := if PyStr.StartsWith(items[0].path, src)
        then Put(acc, Rename(items[0].path, src, dst, fixed), items[0].node) else acc;
      assert forall i :: 0 <= i < |items[1..]| ==> items[1..][i] == items[i + 1];
      CopyOutside(acc', items[1..], src, dst, fixed, q);
    }
  }

  /**
   * With the corrected rename, every entry below `src` of the snapshot ends up under
   * `dst` followed by its path relative to `src`, with its value.
   */
  lemma {:induction false} CopyTarget(acc: seq<Entry>, items: seq<Entry>, src: string, dst: string, i: nat)
    requires Distinct(items) && i < |items| && PyStr.StartsWith(items[i].path, src)
    ensures Lookup(CopyFrom(acc, items, src, dst, true), dst + items[i].path[|src|..]) == Some(items[i].node)
    decreases |items|
  {
    var p := items[0].path;
    var acc' := if PyStr.StartsWith(p, src) then Put(acc, Rename(p, src, dst, true), items[0].node) else acc;
    var rest := items[1..];
    assert forall k :: 0 <= k < |rest| ==> rest[k] == items[k + 1];
    if i == 0 {
      forall k | 0 <= k < |rest| && PyStr.StartsWith(rest[k].path, src)
        ensures Rename(rest[k].path, src, dst, true) != Rename(p, src, dst, true)
      {
        RenameInjective(rest[k].path, p, src, dst);
      }
      CopyOutside(acc', rest, src, dst, true, Rename(p, src, dst, true));
    } else {
      DistinctTail(items);
      CopyTarget(acc', rest, src, dst, i - 1);
    }
  }

  /** With the corrected rename and the directories apart, `cp -r` leaves the source tree as it was. */
  lemma CopyKeepsSource(acc: seq<Entry>, items: seq<Entry>, src: string, dst: string, q: string)
    requires Apart(src, dst) && PyStr.StartsWith(q, src)
    ensures Lookup(CopyFrom(acc, items, src, dst, true), q) == Lookup(acc, q)
  {
    forall i | 0 <= i < |items| && PyStr.StartsWith(items[i].path, src)
      ensures Rename(items[i].path, src, dst, true) != q
    {
      RenameLeaves(items[i].path, src, dst);
    }
    CopyOutside(acc, items, src, dst, true, q);
  }

  /** One step of the `mv` loop: `fs[new_p] = fs.pop(p)` for a key `p` below `src`. */
  function MoveStep(acc: seq<Entry>, p: string, src: string, dst: string, fixed: bool): seq<Entry>
  {
    if PyStr.StartsWith(p, src) then
      match Lookup(acc, p)
      case Some(v) => Put(Remove(acc, p), Rename(p, src, dst, fixed), v)
      case None => acc
    else acc
  }

  /** The `mv` loop over the snapshot of the keys. */
  function MoveFrom(acc: seq<Entry>, keys: seq<string>, src: string, dst: string, fixed: bool): seq<Entry>
    decreases |keys|
  {
    if keys == [] then acc
    else MoveFrom(MoveStep(acc, keys[0], src, dst, fixed), keys[1..], src, dst, fixed)
  }

  /** A key outside `src` that no moved key is renamed to keeps its value. */
  lemma {:induction false} MoveOutside(acc: seq<Entry>, keys: seq<string>, src: string, dst: string, fixed: bool, q: string)
    requires !PyStr.StartsWith(q, src)
    requires forall i :: 0 <= i < |keys| && PyStr.StartsWith(keys[i], src) ==> Rename(keys[i], src, dst, fixed) != q
    ensures Lookup(MoveFrom(acc, keys, src, dst, fixed), q) == Lookup(acc, q)
    decreases |keys|
  {
    if keys != [] {
      assert forall i :: 0 <= i < |keys[1..]| ==> keys[1..][i] == keys[i + 1];
      MoveOutside(MoveStep(acc, keys[0], src, dst, fixed), keys[1..], src, dst, fixed, q);
    }
  }

  /** With the corrected rename and the directories apart, every moved key is gone from `src`. */
  lemma {:induction false} MoveEmptiesSource(acc: seq<Entry>, keys: seq<string>, src: string, dst: string, q: string)
    requires Apart(src, dst) && PyStr.StartsWith(q, src)
    ensures Lookup(MoveFrom(acc, keys, src, dst, true), q) == if q in keys then None else Lookup(acc, q)
    decreases |keys|
  {
    if keys != [] {
      var acc' := MoveStep(acc, keys[0], src, dst, true);
      if PyStr.StartsWith(keys[0], src) {
        RenameLeaves(keys[0], src, dst);
      }
      assert Lookup(acc', q) == if q == keys[0] then None else Lookup(acc, q);
      MoveEmptiesSource(acc', keys[1..], src, dst, q);
      assert q in keys <==> q == keys[0] || q in keys[1..];
    }
  }

  /** Keys listed once each. */
  predicate Unique(keys: seq<string>)
  {
    forall i, j :: 0 <= i < j < |keys| ==> keys[i] != keys[j]
  }

  /** A key below `src` other than the one moved keeps its value across one step. */
  lemma MoveStepKeeps(acc: seq<Entry>, p: string, src: string, dst: string, k: string)
    requires Apart(src, dst) && PyStr.StartsWith(k, src) && k != p
    ensures Lookup(MoveStep(acc, p, src, dst, true), k) == Lookup(acc, k)
  {
    if PyStr.StartsWith(p, src) {
      RenameLeaves(p, src, dst);
    }
  }

  /** The first key, when it is below `src`, lands under its new name with its value. */
  lemma MoveTargetFirst(acc: seq<Entry>, keys: seq<string>, src: string, dst: string)
    requires Apart(src, dst) && Unique(keys) && keys != [] && PyStr.StartsWith(keys[0], src) && Has(acc, keys[0])
    ensures Lookup(MoveFrom(acc, keys, src, dst, true), dst + keys[0][|src|..]) == Lookup(acc, keys[0])
  {
    var p := keys[0];
    var acc' := MoveStep(acc, p, src, dst, true);
    var rest := keys[1..];
    RenameLeaves(p, src, dst);
    forall k | 0 <= k < |rest| && PyStr.StartsWith(rest[k], src)
      ensures Rename(rest[k], src, dst, true) != Rename(p, src, dst, true)
    {
      assert rest[k] == keys[k + 1];
      RenameInjective(rest[k], p, src, dst);
    }
    MoveOutside(acc', rest, src, dst, true, Rename(p, src, dst, true));
  }

  /**
   * With the corrected rename and the directories apart, each key below `src` that was
   * present ends up under `dst` followed by its path relative to `src`, with its value.
   */
  lemma {:induction false} MoveTarget(acc: seq<Entry>, keys: seq<string>, src: string, dst: string, i: nat)
    requires Apart(src, dst) && Unique(keys) && i < |keys| && PyStr.StartsWith(keys[i], src) && Has(acc, keys[i])
    ensures Lookup(MoveFrom(acc, keys, src, dst, true), dst + keys[i][|src|..]) == Lookup(acc, keys[i])
    decreases |keys|
  {
    if i == 0 {
      MoveTargetFirst(acc, keys, src, dst);
    } else {
      var acc' := MoveStep(acc, keys[0], src, dst, true);
      var rest := keys[1..];
      assert rest[i - 1] == keys[i] && keys[i] != keys[0];
      assert Unique(rest) by {
        assert forall a, b :: 0 <= a < b < |rest| ==> rest[a] == keys[a + 1] && rest[b] == keys[b + 1];
      }
      MoveStepKeeps(acc, keys[0], src, dst, keys[i]);
      assert Has(acc', rest[i - 1]);
      MoveTarget(acc', rest, src, dst, i - 1);
      assert MoveFrom(acc, keys, src, dst, true) == MoveFrom(acc', rest, src, dst, true);
    }
  }

  // ---------------------------------------------------------------- rm of a directory key

  /**
   * The `has_children` test of `rm`. The source looks for keys starting with the key plus
   * `/`, which no key can do when the directory key already ends in `/`; the corrected test
   * looks below `DirPrefix` of the key.
   */
  predicate HasChildren(fs: seq<Entry>, p: string, fixed: bool)
  {
    exists i :: 0 <= i < |fs| && fs[i].path != p && PyStr.StartsWith(fs[i].path, if fixed then DirPrefix(p) else p + "/")
  }

  /**
   * `rm` of a key holding a directory: `None` when it refuses, else the new dict. The source
   * drops every key starting with the key itself; the corrected removal drops the key and the
   * keys below `DirPrefix` of it.
   */
  function RmDir(fs: seq<Entry>, p: string, args: seq<string>, fixed: bool): Option<seq<Entry>>
  {
    if HasChildren(fs, p, fixed) && "-r" !in args then None
    else if fixed then Some(Remove(Without(fs, DirPrefix(p)), p))
    else Some(Without(fs, p))
  }

  /** Removing a directory key keeps the keys unique. */
  lemma RmDirDistinct(fs: seq<Entry>, p: string, args: seq<string>, fixed: bool)
    requires Distinct(fs) && RmDir(fs, p, args, fixed).Some?
    ensures Distinct(RmDir(fs, p, args, fixed).value)
  {
    WithoutDistinct(fs, DirPrefix(p));
    RemoveDistinct(Without(fs, DirPrefix(p)), p);
    WithoutDistinct(fs, p);
  }

  /** Corrected, `rm` without `-r` removes the directory key and nothing else. */
  lemma RmDirAlone(fs: seq<Entry>, p: string, args: seq<string>)
    requires "-r" !in args && RmDir(fs, p, args, true).Some?
    ensures forall q :: q != p ==> Lookup(RmDir(fs, p, args, true).value, q) == Lookup(fs, q)
    ensures !Has(RmDir(fs, p, args, true).value, p)
  {
    assert forall i :: 0 <= i < |fs| && fs[i].path != p ==> !PyStr.StartsWith(fs[i].path, DirPrefix(p));
  }

  /** Corrected, `rm -r` removes the directory key and everything below it, and keeps the rest. */
  lemma RmDirRecursive(fs: seq<Entry>, p: string, args: seq<string>)
    requires "-r" in args
    ensures RmDir(fs, p, args, true).Some?
    ensures forall q :: (Lookup(RmDir(fs, p, args, true).value, q)
      == if q == p || PyStr.StartsWith(q, DirPrefix(p)) then None else Lookup(fs, q))
  {
  }

  /**
   * As written, `rm docs/` without `-r` in the home directory (the path `/home/user/docs/`,
   * see `HomeChild`, a directory holding a note, see `DocsKey`) removes the note with it.
   */
  lemma RmDropsChildren()
    ensures RmDir(InitialFs, "/home/user/docs/", ["docs/"], false).Some?
    ensures !Has(RmDir(InitialFs, "/home/user/docs/", ["docs/"], false).value, "/home/user/docs/notes.txt")
  {
    NoSlashAt16();
    RmUnchecked(InitialFs, "/home/user/docs/", ["docs/"], "/home/user/docs/notes.txt");
  }

  /** As written, when no key has a `/` right after `p`, `rm` of `p` goes ahead and drops what lies below it. */
  lemma RmUnchecked(fs: seq<Entry>, p: string, args: seq<string>, q: string)
    requires forall i :: 0 <= i < |fs| && |fs[i].path| > |p| ==> fs[i].path[|p|] != '/'
    requires PyStr.StartsWith(q, p)
    ensures RmDir(fs, p, args, false) == Some(Without(fs, p))
    ensures !Has(Without(fs, p), q)
  {
    NoSlashChildren(fs, p);
  }

  /** The home directory holds `docs/` as a directory, and the note inside it. */
  lemma DocsKey()
    ensures Lookup(InitialFs, "/home/user/docs/") == Some(Dir)
    ensures Has(InitialFs, "/home/user/docs/notes.txt")
  {
    var fs := InitialFs;
    assert fs[5].path == "/home/user/docs/notes.txt";
    assert fs[0].path != "/home/user/docs/" && |fs[1].path| != 16 && |fs[2].path| != 16 && |fs[3].path| != 16;
    assert fs[4] == Entry("/home/user/docs/", Dir);
    assert Lookup(fs[4..], "/home/user/docs/") == Some(Dir);
    assert fs[3..][1..] == fs[4..] && fs[2..][1..] == fs[3..] && fs[1..][1..] == fs[2..];
  }

  /** As written, the child test finds nothing when no longer key has a `/` right after `p`. */
  lemma NoSlashChildren(fs: seq<Entry>, p: string)
    requires forall i :: 0 <= i < |fs| && |fs[i].path| > |p| ==> fs[i].path[|p|] != '/'
    ensures !HasChildren(fs, p, false)
  {
    forall i | 0 <= i < |fs| ensures !PyStr.StartsWith(fs[i].path, p + "/") {
      if |fs[i].path| > |p| {
        assert (p + "/")[|p|] == '/';
      }
    }
  }

  /** No key of the initial dict has a `/` at index 16, right after `/home/user/docs/`. */
  lemma NoSlashAt16()
    ensures forall i :: 0 <= i < |InitialFs| && |InitialFs[i].path| > 16 ==> InitialFs[i].path[16] != '/'
  {
    var fs := InitialFs;
    assert |fs[0].path| <= 16 && |fs[4].path| <= 16;
    assert fs[1].path[16] == 'E' && fs[2].path[16] == 'y' && fs[3].path[16] == 't' && fs[5].path[16] == 'n';
  }

  /** A plain name resolves to the entry of that name in the home directory. */
  lemma HomeChild(name: string)
    requires name != [] && name[0] != '/' && name !in {"~", "..", "."}
    ensures FullPath(Home, name) == "/home/user/" + name
  {
    assert !PyStr.EndsWith(Home, "/") by {
      assert Home[|Home| - 1] == 'r';
    }
  }

  // ---------------------------------------------------------------- helpers of the terminal

  /** The keys of the dict, in order (`list(fs.keys())`). */
  function Keys(fs: seq<Entry>): (r: seq<string>)
    ensures |r| == |fs| && forall i :: 0 <= i < |fs| ==> r[i] == fs[i].path
  {
    seq(|fs|, i requires 0 <= i < |fs| => fs[i].path)
  }

  /** The initial dict has unique keys (their lengths already differ). */
  lemma InitialDistinct()
    ensures Distinct(InitialFs)
  {
    var fs := InitialFs;
    DistinctIndex(fs);
    assert |fs[0].path| == 11 && |fs[1].path| == 20 && |fs[2].path| == 17;
    assert |fs[3].path| == 19 && |fs[4].path| == 16 && |fs[5].path| == 25;
  }

  /** The directory `cd` moves to, or `None` when it reports an error. */
  function CdTarget(fs: seq<Entry>, cwd: string, args: seq<string>): Option<string>
  {
    if args == [] || args[0] == "~" then Some(Home)
    else
      var newPath := FullPath(cwd, args[0]);
      var folder := DirPrefix(newPath);
      if Has(fs, folder) then Some(PyStr.RStrip(folder, {'/'}))
      else if newPath == "/" then Some("/")
      else None
  }

  /** Dropping the one trailing slash of a path that had none before it. */
  lemma RStripSlash(x: string)
    requires x != [] && x[|x| - 1] != '/'
    ensures PyStr.RStrip(x + "/", {'/'}) == x
  {
    assert (x + "/")[..|x + "/"| - 1] == x;
  }

  /** A plain name below a clean directory other than `/` resolves to `cwd/name`, a key without a trailing slash. */
  lemma ChildPath(cwd: string, name: string)
    requires Clean(cwd) && cwd != "/" && Component(name)
    ensures FullPath(cwd, name) == cwd + "/" + name
    ensures DirPrefix(cwd + "/" + name) == cwd + "/" + name + "/"
  {
    var child := cwd + "/" + name;
    assert !PyStr.EndsWith(cwd, "/");
    assert !PyStr.StartsWith(name, "/") by { assert name[0] != '/'; }
    assert !PyStr.EndsWith(child, "/") by { assert child[|child| - 1] == name[|name| - 1]; }
  }

  /** `cd name` enters a directory just made under that name. */
  lemma CdIntoNew(fs: seq<Entry>, cwd: string, name: string)
    requires Clean(cwd) && cwd != "/" && Component(name)
    ensures CdTarget(Put(fs, cwd + "/" + name + "/", Dir), cwd, [name]) == Some(cwd + "/" + name)
  {
    var child := cwd + "/" + name;
    ChildPath(cwd, name);
    assert child[|child| - 1] != '/' by { assert child[|child| - 1] == name[|name| - 1]; }
    RStripSlash(child);
  }

  /** `cd ..` from `cwd/name` comes back to `cwd` while `cwd` is a directory. */
  lemma CdBack(fs: seq<Entry>, cwd: string, name: string)
    requires Clean(cwd) && cwd != "/" && Component(name) && Has(fs, cwd + "/")
    ensures CdTarget(fs, cwd + "/" + name, [".."]) == Some(cwd)
  {
    ChildPath(cwd, name);
    ChildParent(cwd, name);
    RStripSlash(cwd);
  }

  /**
   * `mkdir name` then `cd name` enters the new directory, and `cd ..` from there comes back,
   * for a plain name in an existing directory other than `/`.
   */
  lemma MkdirCdBack(fs: seq<Entry>, cwd: string, name: string)
    requires Clean(cwd) && cwd != "/" && Component(name) && Has(fs, cwd + "/")
    ensures var fs' := Put(fs, DirPrefix(FullPath(cwd, name)), Dir);
      var c := CdTarget(fs', cwd, [name]);
      c == Some(cwd + "/" + name) && CdTarget(fs', c.value, [".."]) == Some(cwd)
  {
    var child := cwd + "/" + name;
    ChildPath(cwd, name);
    var fs' := Put(fs, child + "/", Dir);
    CdIntoNew(fs, cwd, name);
    assert Has(fs', cwd + "/");
    CdBack(fs', cwd, name);
  }

  /** What `touch` or `nano` writes under a name, `cat` of that name shows. */
  lemma WriteThenCat(fs: seq<Entry>, cwd: string, name: string, content: string)
    ensures CatReply(Put(fs, FullPath(cwd, name), File(content)), cwd, [name]) == Text(content)
  {
  }

  /** A plain name resolves to itself inside the current directory. */
  lemma PlainName(cwd: string, name: string)
    requires Component(name)
    ensures FullPath(cwd, name) == DirPrefix(cwd) + name
  {
    assert name[0] != '/';
  }

  /** After `touch` of a plain name in the current directory, `ls` lists it. */
  lemma TouchThenLs(fs: seq<Entry>, cwd: string, name: string, content: string)
    requires Component(name)
    ensures name in LsNames(Put(fs, FullPath(cwd, name), File(content)), LsDir(cwd, []))
  {
    var d := DirPrefix(cwd);
    PlainName(cwd, name);
    var fs' := Put(fs, d + name, File(content));
    assert Has(fs', d + name) && Child(name);
    LsNamesIff(fs', d, name);
  }

  /** One step of the `ls` loop, with the names collected so far. */
  lemma LsNamesStep(fs: seq<Entry>, i: nat, dir: string, results: seq<string>)
    requires i < |fs|
    ensures (results + Listing(fs[i].path, dir)) + LsNames(fs[i + 1..], dir) == results + LsNames(fs[i..], dir)
  {
    assert fs[i..][1..] == fs[i + 1..];
  }

  /** One step of the `find` loop, with the keys collected so far. */
  lemma FindNamesStep(fs: seq<Entry>, i: nat, path: string, filter: Option<string>, results: seq<string>)
    requires i < |fs|
    ensures (if Found(fs[i].path, path, filter) then results + [fs[i].path] else results) + FindNames(fs[i + 1..], path, filter)
      == results + FindNames(fs[i..], path, filter)
  {
    assert fs[i..][1..] == fs[i + 1..];
  }

  /** `user_input.strip()` */
  function Line(input: string): string
  {
    PyStr.Strip(input, PyStr.Whitespace)
  }

  /** The first word of a command line (the empty string for a blank one). */
  function CommandWord(line: string): string
  {
    var words := PyStr.SplitWs(line);
    if words == [] then "" else words[0]
  }

  /** The words after the first. */
  function Arguments(line: string): seq<string>
  {
    var words := PyStr.SplitWs(line);
    if words == [] then [] else words[1..]
  }

  /** A stripped line that is not blank splits into at least one word: its command. */
  lemma NonBlankWords(line: string)
    requires line != [] && line[0] !in PyStr.Whitespace
    ensures PyStr.SplitWs(line) != []
    ensures CommandWord(line) == PyStr.SplitWs(line)[0] && Arguments(line) == PyStr.SplitWs(line)[1..]
  {
    assert PyStr.LStrip(line, PyStr.Whitespace) == line;
  }

  // ---------------------------------------------------------------- what one command does

  /**
   * What one command does: its reply, the new dict, the new working directory, and whether it
   * sets `modified`.
   */
  datatype Outcome = Outcome(reply: Reply, fs: seq<Entry>, cwd: string, wrote: bool)

  /** `touch name [words...]`: a new file holding the words, unless the name is taken. */
  function TouchOutcome(fs: seq<Entry>, cwd: string, args: seq<string>): Outcome
  {
    if args == [] then Outcome(Text("Error: couldn't find the file name"), fs, cwd, false)
    else
      var p := FullPath(cwd, args[0]);
      if Has(fs, p) || Has(fs, p + "/") then Outcome(Text("File or folder already exists"), fs, cwd, false)
      else Outcome(Text(""), Put(fs, p, File(if |args| > 1 then PyStr.Join(args[1..], " ") else "")), cwd, true)
  }

  /** `mkdir name`: a new directory key ending in `/`, unless it exists. */
  function MkdirOutcome(fs: seq<Entry>, cwd: string, args: seq<string>): Outcome
  {
    if args == [] then Outcome(Text("Error: folder name not provided."), fs, cwd, false)
    else
      var p := DirPrefix(FullPath(cwd, args[0]));
      if Has(fs, p) then Outcome(Text("Error: '" + args[0] + "' already exists."), fs, cwd, false)
      else Outcome(Text(""), Put(fs, p, Dir), cwd, true)
  }

  /** `rm [-r] target`: a file, a directory key (see `RmDir`), or a directory named without its slash. */
  function RmOutcome(fs: seq<Entry>, cwd: string, args: seq<string>, fixed: bool): Outcome
  {
    if args == [] then Outcome(Text("Error: file name not provided."), fs, cwd, false)
    else
      var p := FullPath(cwd, args[0]);
      var refused := Outcome(Text("rm: cannot remove '" + args[0] + "': Is a directory"), fs, cwd, false);
      match Lookup(fs, p)
      case Some(File(_)) => Outcome(Text(""), Remove(fs, p), cwd, true)
      case Some(Dir) =>
        (match RmDir(fs, p, args, fixed)
         case None => refused
         case Some(f) => Outcome(Text(""), f, cwd, true))
      case None =>
        if !Has(fs, DirPrefix(p)) then Outcome(Text("Error: '" + args[0] + "' not found."), fs, cwd, false)
        else if "-r" !in args then refused
        else Outcome(Text(""), Without(fs, DirPrefix(p)), cwd, true)
  }

  /** `cp [-r] source destination`: one file, or with `-r` every key below a directory. */
  function CpOutcome(fs: seq<Entry>, cwd: string, args: seq<string>, fixed: bool): Outcome
  {
    if |args| < 2 then Outcome(Text("usage: cp <source> <destination>"), fs, cwd, false)
    else
      var src := FullPath(cwd, args[0]);
      var dst := FullPath(cwd, args[1]);
      var v := Lookup(fs, src);
      if v.None? then Outcome(Text("cp: cannot stat '" + args[0] + "': No such file or directory"), fs, cwd, false)
      else if v.value == Dir then
        if "-r" in args then Outcome(Text(""), CopyFrom(fs, fs, DirPrefix(src), DirPrefix(dst), fixed), cwd, true)
        else Outcome(Text("cp: -r not specified; omitting directory '" + args[0] + "'"), fs, cwd, false)
      else Outcome(Text(""), Put(fs, dst, v.value), cwd, true)
  }

  /** `mv source destination`: a directory when `source/` is a key, else the single key. */
  function MvOutcome(fs: seq<Entry>, cwd: string, args: seq<string>, fixed: bool): Outcome
  {
    if |args| < 2 then Outcome(Text("usage: mv <source> <destination>"), fs, cwd, false)
    else
      var src := FullPath(cwd, args[0]);
      var dst := FullPath(cwd, args[1]);
      if !Has(fs, src) && !Has(fs, src + "/") then
        Outcome(Text("mv: cannot stat '" + args[0] + "': No such file or directory"), fs, cwd, false)
      else if Has(fs, src + "/") then
        Outcome(Text(""), MoveFrom(fs, Keys(fs), src + "/", DirPrefix(dst), fixed), cwd, true)
      else Outcome(Text(""), Put(Remove(fs, src), dst, Lookup(fs, src).value), cwd, true)
  }

  /**
   * `nano file` opens the editor on the file's text (empty for a new file); `nano file words...`
   * saves the words as the file's text.
   */
  function NanoOutcome(fs: seq<Entry>, cwd: string, args: seq<string>): Outcome
  {
    if args == [] then Outcome(Text("usage: nano <file> [content]"), fs, cwd, false)
    else
      var p := FullPath(cwd, args[0]);
      var isDir := Outcome(Text("nano: " + args[0] + ": Is a directory"), fs, cwd, false);
      if |args| == 1 then
        match Lookup(fs, p)
        case Some(Dir) => isDir
        case Some(File(t)) => Outcome(NanoEdit(args[0], p, t), fs, cwd, false)
        case None => Outcome(NanoEdit(args[0], p, ""), fs, cwd, false)
      else if PyStr.EndsWith(p, "/") || Lookup(fs, p) == Some(Dir) then isDir
      else Outcome(Text("Saved " + args[0]), Put(fs, p, File(PyStr.Join(args[1..], " "))), cwd, true)
  }

  /** `find [path] [-name pattern]`: the keys found, sorted, one per line. */
  function FindReply(fs: seq<Entry>, cwd: string, args: seq<string>): Reply
  {
    if args == [] then Text(".")
    else Text(PyStr.Join(PyStr.SortStrs(FindNames(fs, FullPath(cwd, args[0]), NameFilter(args))), "\n"))
  }

  /** What `run_command` does with the command `c` and its arguments. */
  function Run(fs: seq<Entry>, cwd: string, history: seq<string>, c: Cmd, args: seq<string>, fixed: bool): Outcome
  {
    match c
    case Ls =>
      var dir := LsDir(cwd, args);
      Outcome(LsReply(LsNames(fs, dir), fs, dir, args, fixed), fs, cwd, false)
    case Cd =>
      (match CdTarget(fs, cwd, args)
       case Some(d) => Outcome(Text(""), fs, d, false)
       case None => Outcome(Text("cd: " + args[0] + ": No such file or directory"), fs, cwd, false))
    case Find => Outcome(FindReply(fs, cwd, args), fs, cwd, false)
    case Touch => TouchOutcome(fs, cwd, args)
    case Mkdir => MkdirOutcome(fs, cwd, args)
    case Rm => RmOutcome(fs, cwd, args, fixed)
    case Cp => CpOutcome(fs, cwd, args, fixed)
    case Mv => MvOutcome(fs, cwd, args, fixed)
    case Nano => NanoOutcome(fs, cwd, args)
    case _ => Outcome(Answer(fs, cwd, history, c, args), fs, cwd, false)
  }

  /** The commands that only read the state answer as `Answer` says and change nothing. */
  lemma RunAnswers(fs: seq<Entry>, cwd: string, history: seq<string>, c: Cmd, args: seq<string>, fixed: bool)
    requires Reads(c)
    ensures Run(fs, cwd, history, c, args, fixed) == Outcome(Answer(fs, cwd, history, c, args), fs, cwd, false)
  {
    match c
    case History | Pwd | Cat | Whoami | Uname | Man | Echo | Date | Clear | Exit | Unknown(_) =>
  }

  /** A writing command keeps the working directory and sets `modified` whenever it changes the dict. */
  predicate Kept(r: Outcome, fs: seq<Entry>, cwd: string)
  {
    r.cwd == cwd && (r.fs != fs ==> r.wrote)
  }

  /** A writing command sets `modified` exactly when its reply is `ok`. */
  predicate WroteIff(r: Outcome, ok: string)
  {
    r.wrote <==> r.reply == Text(ok)
  }

  lemma TouchKept(fs: seq<Entry>, cwd: string, args: seq<string>)
    ensures Kept(TouchOutcome(fs, cwd, args), fs, cwd) && WroteIff(TouchOutcome(fs, cwd, args), "")
  {
  }

  lemma MkdirKept(fs: seq<Entry>, cwd: string, args: seq<string>)
    ensures Kept(MkdirOutcome(fs, cwd, args), fs, cwd) && WroteIff(MkdirOutcome(fs, cwd, args), "")
  {
  }

  lemma RmKept(fs: seq<Entry>, cwd: string, args: seq<string>, fixed: bool)
    ensures Kept(RmOutcome(fs, cwd, args, fixed), fs, cwd) && WroteIff(RmOutcome(fs, cwd, args, fixed), "")
  {
    if args != [] {
      assert |"rm: cannot remove '" + args[0] + "': Is a directory"| > 0;
      assert |"Error: '" + args[0] + "' not found."| > 0;
    }
  }

  lemma CpKept(fs: seq<Entry>, cwd: string, args: seq<string>, fixed: bool)
    ensures Kept(CpOutcome(fs, cwd, args, fixed), fs, cwd) && WroteIff(CpOutcome(fs, cwd, args, fixed), "")
  {
  }

  lemma MvKept(fs: seq<Entry>, cwd: string, args: seq<string>, fixed: bool)
    ensures Kept(MvOutcome(fs, cwd, args, fixed), fs, cwd) && WroteIff(MvOutcome(fs, cwd, args, fixed), "")
  {
  }

  lemma NanoKept(fs: seq<Entry>, cwd: string, args: seq<string>)
    requires args != []
    ensures Kept(NanoOutcome(fs, cwd, args), fs, cwd) && WroteIff(NanoOutcome(fs, cwd, args), "Saved " + args[0])
  {
    var isDir := "nano: " + args[0] + ": Is a directory";
    assert isDir[0] != ("Saved " + args[0])[0];
  }

  /**
   * Only `cd` moves the working directory, only the writing commands set `modified`, and every
   * change of the dict sets it.
   */
  lemma RunFrame(fs: seq<Entry>, cwd: string, history: seq<string>, c: Cmd, args: seq<string>, fixed: bool)
    ensures var r := Run(fs, cwd, history, c, args, fixed);
      (r.cwd != cwd ==> c.Cd?) && (r.fs != fs ==> r.wrote) && (r.wrote ==> Writes(c))
  {
    match c
    case Touch => TouchKept(fs, cwd, args);
    case Mkdir => MkdirKept(fs, cwd, args);
    case Rm => RmKept(fs, cwd, args, fixed);
    case Cp => CpKept(fs, cwd, args, fixed);
    case Mv => MvKept(fs, cwd, args, fixed);
    case Nano => if args != [] { NanoKept(fs, cwd, args); }
    case Ls | Cd | Find =>
    case History | Pwd | Cat | Whoami | Uname | Man | Echo | Date | Clear | Exit | Unknown(_) =>
  }

  /**
   * A writing command sets `modified` exactly when it succeeds: when its reply is empty, or
   * `Saved file` for `nano`.
   */
  lemma WroteOnSuccess(fs: seq<Entry>, cwd: string, history: seq<string>, c: Cmd, args: seq<string>, fixed: bool)
    requires Writes(c)
    ensures var r := Run(fs, cwd, history, c, args, fixed);
      r.wrote <==> r.reply == Text(if c.Nano? && args != [] then "Saved " + args[0] else "")
  {
    match c
    case Touch => TouchKept(fs, cwd, args);
    case Mkdir => MkdirKept(fs, cwd, args);
    case Rm => RmKept(fs, cwd, args, fixed);
    case Cp => CpKept(fs, cwd, args, fixed);
    case Mv => MvKept(fs, cwd, args, fixed);
    case Nano => if args != [] { NanoKept(fs, cwd, args); }
  }

  // ---------------------------------------------------------------- the terminal

  /** `LinuxTerminal`: the dict, the working directory, the history and the change record. */
  class Terminal {
    var fs: seq<Entry>
    var currentPath: string
    var history: seq<string>
    var lastCommand: Option<string>
    var modified: bool
    /** `false` runs the code as written, `true` the corrections of the findings. */
    const fixed: bool

    /** Keys are unique and `last_command` is the last line of the history. */
    ghost predicate Valid()
      reads this
    {
      Distinct(fs) && lastCommand == (if history == [] then None else Some(history[|history| - 1]))
    }

    constructor (fixed: bool)
      ensures Valid() && this.fixed == fixed
      ensures fs == InitialFs && currentPath == Home && history == [] && lastCommand == None && !modified
    {
      this.fixed := fixed;
      fs := InitialFs;
      currentPath := Home;
      history := [];
      lastCommand := None;
      modified := false;
      InitialDistinct();
    }

    /** `ls`: the loop over the keys, then the answer. */
    method Ls(args: seq<string>) returns (out: Reply)
      ensures var dir := LsDir(currentPath, args); out == LsReply(LsNames(fs, dir), fs, dir, args, fixed)
    {
      var dir := LsDir(currentPath, args);
      var results: seq<string> := [];
      var i := 0;
      assert fs[0..] == fs;
      while i < |fs|
        invariant 0 <= i <= |fs|
        invariant results + LsNames(fs[i..], dir) == LsNames(fs, dir)
      {
        LsNamesStep(fs, i, dir, results);
        if Listed(fs[i].path, dir) {
          results := results + [fs[i].path[|dir|..]];
        }
        i := i + 1;
      }
      assert fs[i..] == [] && LsNames(fs[i..], dir) == [];
      assert results + [] == results;
      out := LsReply(results, fs, dir, args, fixed);
    }

    /** `find`: the loop over the keys, then the sorted lines. */
    method Find(args: seq<string>) returns (out: Reply)
      ensures out == FindReply(fs, currentPath, args)
    {
      if args == [] {
        return Text(".");
      }
      var path := FullPath(currentPath, args[0]);
      var filter := NameFilter(args);
      var results: seq<string> := [];
      var i := 0;
      assert fs[0..] == fs;
      while i < |fs|
        invariant 0 <= i <= |fs|
        invariant results + FindNames(fs[i..], path, filter) == FindNames(fs, path, filter)
      {
        FindNamesStep(fs, i, path, filter, results);
        if Found(fs[i].path, path, filter) {
          results := results + [fs[i].path];
        }
        i := i + 1;
      }
      assert fs[i..] == [] && FindNames(fs[i..], path, filter) == [];
      assert results + [] == results;
      out := Text(PyStr.Join(PyStr.SortStrs(results), "\n"));
    }

    /** `cd`: moves to `CdTarget` or reports the missing directory. */
    method Cd(args: seq<string>) returns (out: Reply)
      modifies this`currentPath
      ensures match CdTarget(fs, old(currentPath), args)
        case Some(d) => currentPath == d && out == Text("")
        case None => currentPath == old(currentPath) && out == Text("cd: " + args[0] + ": No such file or directory")
    {
      var target := CdTarget(fs, currentPath, args);
      match target
      case Some(d) =>
        currentPath := d;
        out := Text("");
      case None =>
        out := Text("cd: " + args[0] + ": No such file or directory");
    }

    /** `touch name [words...]`: a new file holding the words. */
    method Touch(args: seq<string>) returns (out: Reply)
      requires Distinct(fs)
      modifies this`fs, this`modified
      ensures Distinct(fs)
      ensures out == TouchOutcome(old(fs), currentPath, args).reply
      ensures fs == TouchOutcome(old(fs), currentPath, args).fs
      ensures modified == (old(modified) || TouchOutcome(old(fs), currentPath, args).wrote)
    {
      if args == [] {
        return Text("Error: couldn't find the file name");
      }
      var p := FullPath(currentPath, args[0]);
      var content := if |args| > 1 then PyStr.Join(args[1..], " ") else "";
      if Has(fs, p) || Has(fs, p + "/") {
        return Text("File or folder already exists");
      }
      PutDistinct(fs, p, File(content));
      fs := Put(fs, p, File(content));
      modified := true;
      out := Text("");
    }

    /** `mkdir name`: a new directory key ending in `/`. */
    method Mkdir(args: seq<string>) returns (out: Reply)
      requires Distinct(fs)
      modifies this`fs, this`modified
      ensures Distinct(fs)
      ensures out == MkdirOutcome(old(fs), currentPath, args).reply
      ensures fs == MkdirOutcome(old(fs), currentPath, args).fs
      ensures modified == (old(modified) || MkdirOutcome(old(fs), currentPath, args).wrote)
    {
      if args == [] {
        return Text("Error: folder name not provided.");
      }
      var p := DirPrefix(FullPath(currentPath, args[0]));
      if Has(fs, p) {
        return Text("Error: '" + args[0] + "' already exists.");
      }
      PutDistinct(fs, p, Dir);
      fs := Put(fs, p, Dir);
      modified := true;
      out := Text("");
    }

    /** `rm [-r] target`: a file, a directory key (see `RmDir`), or a directory named without its slash. */
    method Rm(args: seq<string>) returns (out: Reply)
      requires Distinct(fs)
      modifies this`fs, this`modified
      ensures Distinct(fs)
      ensures out == RmOutcome(old(fs), currentPath, args, fixed).reply
      ensures fs == RmOutcome(old(fs), currentPath, args, fixed).fs
      ensures modified == (old(modified) || RmOutcome(old(fs), currentPath, args, fixed).wrote)
    {
      if args == [] {
        return Text("Error: file name not provided.");
      }
      var target := args[0];
      var p := FullPath(currentPath, target);
      var pd := DirPrefix(p);
      match Lookup(fs, p)
      case Some(File(_)) =>
        RemoveDistinct(fs, p);
        fs := Remove(fs, p);
        modified := true;
        out := Text("");
      case Some(Dir) =>
        var r := RmDir(fs, p, args, fixed);
        if r.None? {
          return Text("rm: cannot remove '" + target + "': Is a directory");
        }
        RmDirDistinct(fs, p, args, fixed);
        fs := r.value;
        modified := true;
        out := Text("");
      case None =>
        if !Has(fs, pd) {
          return Text("Error: '" + target + "' not found.");
        }
        if "-r" !in args {
          return Text("rm: cannot remove '" + target + "': Is a directory");
        }
        WithoutDistinct(fs, pd);
        fs := Without(fs, pd);
        modified := true;
        out := Text("");
    }

    /** The `cp -r` loop: every entry of the snapshot below `src` is written under its new key. */
    method CopyTree(src: string, dst: string)
      requires Distinct(fs)
      modifies this`fs
      ensures Distinct(fs) && fs == CopyFrom(old(fs), old(fs), src, dst, fixed)
    {
      var items := fs;
      ghost var goal := CopyFrom(fs, items, src, dst, fixed);
      var i := 0;
      while i < |items|
        invariant 0 <= i <= |items| && Distinct(fs)
        invariant CopyFrom(fs, items[i..], src, dst, fixed) == goal
      {
        assert items[i..][1..] == items[i + 1..];
        var e := items[i];
        if PyStr.StartsWith(e.path, src) {
          var newPath := Rename(e.path, src, dst, fixed);
          PutDistinct(fs, newPath, e.node);
          fs := Put(fs, newPath, e.node);
        }
        i := i + 1;
      }
    }

    /** The `mv` loop over the snapshot of the keys: each key below `src` is popped and stored under its new key. */
    method MoveTree(src: string, dst: string)
      requires Distinct(fs)
      modifies this`fs
      ensures Distinct(fs) && fs == MoveFrom(old(fs), Keys(old(fs)), src, dst, fixed)
    {
      var keys := Keys(fs);
      ghost var goal := MoveFrom(fs, keys, src, dst, fixed);
      var i := 0;
      while i < |keys|
        invariant 0 <= i <= |keys| && Distinct(fs)
        invariant MoveFrom(fs, keys[i..], src, dst, fixed) == goal
      {
        assert keys[i..][1..] == keys[i + 1..];
        var p := keys[i];
        if PyStr.StartsWith(p, src) {
          var v := Lookup(fs, p);
          if v.Some? {
            RemoveDistinct(fs, p);
            PutDistinct(Remove(fs, p), Rename(p, src, dst, fixed), v.value);
            fs := Put(Remove(fs, p), Rename(p, src, dst, fixed), v.value);
          }
        }
        i := i + 1;
      }
    }
  
    /** `cp [-r] source destination` */
    method Cp(args: seq<string>) returns (out: Reply)
      requires Distinct(fs)
      modifies this`fs, this`modified
      ensures Distinct(fs)
      ensures out == CpOutcome(old(fs), currentPath, args, fixed).reply
      ensures fs == CpOutcome(old(fs), currentPath, args, fixed).fs
      ensures modified == (old(modified) || CpOutcome(old(fs), currentPath, args, fixed).wrote)
    {
      if |args| < 2 {
        return Text("usage: cp <source> <destination>");
      }
      var src := FullPath(currentPath, args[0]);
      var dst := FullPath(currentPath, args[1]);
      var v := Lookup(fs, src);
      if v.None? {
        return Text("cp: cannot stat '" + args[0] + "': No such file or directory");
      }
      if v.value == Dir {
        if "-r" !in args {
          return Text("cp: -r not specified; omitting directory '" + args[0] + "'");
        }
        CopyTree(DirPrefix(src), DirPrefix(dst));
      } else {
        PutDistinct(fs, dst, v.value);
        fs := Put(fs, dst, v.value);
      }
      modified := true;
      out := Text("");
    }

    /** `fs[dst] = fs.pop(src)` */
    method MoveKey(src: string, dst: string)
      requires Distinct(fs) && Has(fs, src)
      modifies this`fs
      ensures Distinct(fs) && fs == Put(Remove(old(fs), src), dst, Lookup(old(fs), src).value)
    {
      var v := Lookup(fs, src).value;
      RemoveDistinct(fs, src);
      PutDistinct(Remove(fs, src), dst, v);
      fs := Put(Remove(fs, src), dst, v);
    }

    /** `mv source destination`: a directory when `source/` is a key, else the single key. */
    method Mv(args: seq<string>) returns (out: Reply)
      requires Distinct(fs)
      modifies this`fs, this`modified
      ensures Distinct(fs)
      ensures out == MvOutcome(old(fs), currentPath, args, fixed).reply
      ensures fs == MvOutcome(old(fs), currentPath, args, fixed).fs
      ensures modified == (old(modified) || MvOutcome(old(fs), currentPath, args, fixed).wrote)
    {
      if |args| < 2 {
        return Text("usage: mv <source> <destination>");
      }
      var src := FullPath(currentPath, args[0]);
      var dst := FullPath(currentPath, args[1]);
      if !Has(fs, src) && !Has(fs, src + "/") {
        return Text("mv: cannot stat '" + args[0] + "': No such file or directory");
      }
      if Has(fs, src + "/") {
        MoveTree(src + "/", DirPrefix(dst));
      } else {
        MoveKey(src, dst);
      }
      modified := true;
      out := Text("");
    }

    /**
     * `nano file` opens the editor on the file's text (empty for a new file); `nano file words...`
     * saves the words as the file's text.
     */
    method Nano(args: seq<string>) returns (out: Reply)
      requires Distinct(fs)
      modifies this`fs, this`modified
      ensures Distinct(fs)
      ensures out == NanoOutcome(old(fs), currentPath, args).reply
      ensures fs == NanoOutcome(old(fs), currentPath, args).fs
      ensures modified == (old(modified) || NanoOutcome(old(fs), currentPath, args).wrote)
    {
      if args == [] {
        return Text("usage: nano <file> [content]");
      }
      var filename := args[0];
      var p := FullPath(currentPath, filename);
      if |args| == 1 {
        var v := Lookup(fs, p);
        if v == Some(Dir) {
          return Text("nano: " + filename + ": Is a directory");
        }
        var content := if v.Some? then v.value.text else "";
        return NanoEdit(filename, p, content);
      }
      var content := PyStr.Join(args[1..], " ");
      if PyStr.EndsWith(p, "/") || Lookup(fs, p) == Some(Dir) {
        return Text("nano: " + filename + ": Is a directory");
      }
      PutDistinct(fs, p, File(content));
      fs := Put(fs, p, File(content));
      modified := true;
      out := Text("Saved " + filename);
    }

    /**
     * `run_command`: a blank line answers nothing and changes nothing; any other line is
     * recorded in the history and as the last command, split into words, and dispatched on
     * its first word, with the outcome `Run` gives (see `RunFrame` and `WroteOnSuccess`).
     */
    method RunCommand(input: string) returns (out: Reply)
      requires Valid()
      modifies this
      ensures Valid()
      ensures Line(input) == [] ==>
        out == Text("") && fs == old(fs) && currentPath == old(currentPath) && history == old(history) && modified == old(modified)
      ensures Line(input) != [] ==> history == old(history) + [Line(input)] && lastCommand == Some(Line(input))
      ensures Line(input) != [] ==>
        var r := Run(old(fs), old(currentPath), history, Parse(CommandWord(Line(input))), Arguments(Line(input)), fixed);
        out == r.reply && fs == r.fs && currentPath == r.cwd && modified == (old(modified) || r.wrote)
    {
      var raw := Line(input);
      if raw == [] {
        return Text("");
      }
      history := history + [raw];
      lastCommand := Some(raw);
      out := Execute(raw);
    }

    /** The dispatch of a recorded, non-blank line. */
    method Execute(raw: string) returns (out: Reply)
      requires Distinct(fs)
      modifies this`fs, this`modified, this`currentPath
      ensures Distinct(fs)
      ensures var r := Run(old(fs), old(currentPath), history, Parse(CommandWord(raw)), Arguments(raw), fixed);
        out == r.reply && fs == r.fs && currentPath == r.cwd && modified == (old(modified) || r.wrote)
    {
      out := Dispatch(Parse(CommandWord(raw)), Arguments(raw));
    }

    /** The dispatch of `run_command` on the command. */
    method Dispatch(c: Cmd, args: seq<string>) returns (out: Reply)
      requires Distinct(fs)
      modifies this`fs, this`modified, this`currentPath
      ensures Distinct(fs)
      ensures var r := Run(old(fs), old(currentPath), history, c, args, fixed);
        out == r.reply && fs == r.fs && currentPath == r.cwd && modified == (old(modified) || r.wrote)
    {
      if Writes(c) {
        RunFrame(fs, currentPath, history, c, args, fixed);
        out := Write(c, args);
      } else {
        out := Look(c, args);
      }
    }

    /** The commands that do not write to the dict. */
    method Look(c: Cmd, args: seq<string>) returns (out: Reply)
      requires !Writes(c)
      modifies this`currentPath
      ensures var r := Run(fs, old(currentPath), history, c, args, fixed);
        out == r.reply && fs == r.fs && currentPath == r.cwd && !r.wrote
    {
      match c
      case Ls => out := Ls(args);
      case Cd => out := Cd(args);
      case Find => out := Find(args);
      case History | Pwd | Cat | Whoami | Uname | Man | Echo | Date | Clear | Exit | Unknown(_) =>
        RunAnswers(fs, currentPath, history, c, args, fixed);
        out := Answer(fs, currentPath, history, c, args);
    }

    /** The commands that may write to the dict; every write is recorded as a modification. */
    method Write(c: Cmd, args: seq<string>) returns (out: Reply)
      requires Distinct(fs) && Writes(c)
      modifies this`fs, this`modified
      ensures Distinct(fs)
      ensures var r := Run(old(fs), currentPath, history, c, args, fixed);
        out == r.reply && fs == r.fs && modified == (old(modified) || r.wrote)
    {
      if c.Touch? {
        out := Touch(args);
      } else if c.Mkdir? {
        out := Mkdir(args);
      } else if c.Rm? {
        out := Rm(args);
      } else if c.Cp? {
        out := Cp(args);
      } else if c.Mv? {
        out := Mv(args);
      } else {
        out := Nano(args);
      }
    }
}
}
