/** Day 7 of 2022, the driver: a terminal transcript replayed into a
    `FileSystem`, then the two answers read off its directory sizes. */
module NoSpace {
  import opened Wrappers
  import opened Strings
  import opened Tree
  import opened Fs

  /** One transcript line applied to the file system (`arena`, `cwd`);
      `None` where `parse_input` panics. */
  function Exec(arena: Arena, cwd: nat, line: string): (r: Option<(Arena, nat)>)
    requires ValidArena(arena) && cwd < |arena|
    ensures r.Some? ==> ValidArena(r.value.0) && r.value.1 < |r.value.0|
  {
    if line == "$ cd .." then
      match CdTarget(arena, cwd, "..")
      case Ok(p) => Some((arena, p))
      case Err(_) => None
    else if StartsWith(line, "$ cd") then
      var words := SplitOn(line, " ");
      if |words| < 3 then None
      else
        var name := words[2];
        match CdTarget(arena, cwd, name)
        case Ok(c) => Some((arena, c))
        case Err(_) =>
          AddedChildValid(arena, cwd, Directory(name));
          var a := AddedChild(arena, cwd, Directory(name));
          match CdTarget(a, cwd, name)
          case Ok(c) => Some((a, c))
          case Err(_) => None
    else if StartsWith(line, "$ ls") then Some((arena, cwd))
    else if StartsWith(line, "dir") then
      match SplitOnce(line, " ")
      case None => None
      case Some((_, name)) =>
        if FindChild(arena, arena[cwd].children, name).Some? then Some((arena, cwd))
        else
          AddedChildValid(arena, cwd, Directory(name));
          Some((AddedChild(arena, cwd, Directory(name)), cwd))
    else
      match SplitOnce(line, " ")
      case None => None
      case Some((size, name)) =>
        if FindChild(arena, arena[cwd].children, name).Some? then Some((arena, cwd))
        else match ParseUSize(size)
          case None => None
          case Some(n) =>
            AddedChildValid(arena, cwd, File(name, n));
            Some((AddedChild(arena, cwd, File(name, n)), cwd))
  }

  /** The lines applied in order, stopping at the first panic. */
  function Interpret(arena: Arena, cwd: nat, lines: seq<string>): (r: Option<(Arena, nat)>)
    requires ValidArena(arena) && cwd < |arena|
    ensures r.Some? ==> ValidArena(r.value.0) && r.value.1 < |r.value.0|
    decreases |lines|
  {
    if |lines| == 0 then Some((arena, cwd))
    else match Interpret(arena, cwd, lines[..|lines| - 1])
      case None => None
      case Some((a, c)) => Exec(a, c, lines[|lines| - 1])
  }

  /** A panic ends the replay: once a prefix fails, so does every longer one. */
  lemma {:induction false} InterpretStops(arena: Arena, cwd: nat, lines: seq<string>, i: nat)
    requires ValidArena(arena) && cwd < |arena| && i <= |lines|
    requires Interpret(arena, cwd, lines[..i]).None?
    ensures Interpret(arena, cwd, lines).None?
    decreases |lines|
  {
    if i < |lines| {
      assert lines[..|lines| - 1][..i] == lines[..i];
      InterpretStops(arena, cwd, lines[..|lines| - 1], i);
    } else {
      assert lines[..i] == lines;
    }
  }

  /** The arena `parse_input` builds: the transcript is trimmed and must
      open with "$ cd /"; the rest is replayed from the bare root. */
  function ParseSpec(input: string): (r: Option<Arena>)
    ensures r.Some? ==> ValidArena(r.value)
  {
    var lines := Lines(Trim(input));
    if |lines| == 0 || lines[0] != "$ cd /" then None
    else
      RootValid();
      match Interpret(Root, 0, lines[1..])
      case None => None
      case Some((a, _)) => Some(a)
  }

  /** A "$ ls" line changes nothing. */
  lemma ListChangesNothing(arena: Arena, cwd: nat, line: string)
    requires ValidArena(arena) && cwd < |arena|
    requires StartsWith(line, "$ ls")
    ensures Exec(arena, cwd, line) == Some((arena, cwd))
  {
    assert line[..4] == "$ ls";
    assert line[..4] != "$ cd";
  }

  /** Adding a child named `name` makes `cwd` have a child of that name. */
  lemma FindAddedChild(arena: Arena, cwd: nat, value: FSNode)
    requires ValidArena(arena) && cwd < |arena|
    ensures ValidArena(AddedChild(arena, cwd, value))
    ensures var a := AddedChild(arena, cwd, value);
      FindChild(a, a[cwd].children, value.name).Some?
  {
    AddedChildValid(arena, cwd, value);
    AddedChildShape(arena, cwd, value);
    var a := AddedChild(arena, cwd, value);
    var cs := a[cwd].children;
    assert a[cs[|cs| - 1]].value.name == value.name;
  }

  /** Listing lines ("dir n" and "size n") are idempotent: the second
      copy finds the name already there, so a listing seen twice adds
      nothing. */
  lemma ListingIdempotent(arena: Arena, cwd: nat, line: string)
    requires ValidArena(arena) && cwd < |arena|
    requires !StartsWith(line, "$ cd") && !StartsWith(line, "$ ls")
    requires Exec(arena, cwd, line).Some?
    ensures var (a, c) := Exec(arena, cwd, line).value;
      c == cwd && Exec(a, c, line) == Exec(arena, cwd, line)
  {
    assert line != "$ cd ..";
    var (_, name) := SplitOnce(line, " ").value;
    if FindChild(arena, arena[cwd].children, name).None? {
      if StartsWith(line, "dir") {
        FindAddedChild(arena, cwd, Directory(name));
      } else {
        FindAddedChild(arena, cwd, File(name, ParseUSize(SplitOnce(line, " ").value.0).value));
      }
    }
  }

  /** "$ cd d" (with `d` not "..") always lands in a child of the current
      directory named `d`, creating it first when there is none: the
      `expect` after `mkdir` never fires. */
  lemma EnterLands(arena: Arena, cwd: nat, line: string)
    requires ValidArena(arena) && cwd < |arena|
    requires line != "$ cd .." && StartsWith(line, "$ cd")
    requires |SplitOn(line, " ")| >= 3 && SplitOn(line, " ")[2] != ".."
    ensures Exec(arena, cwd, line).Some?
    ensures var (a, c) := Exec(arena, cwd, line).value;
      var name := SplitOn(line, " ")[2];
      a[c].value.name == name && a[c].parent == Some(cwd)
      && (a == arena || a == AddedChild(arena, cwd, Directory(name)))
  {
    var name := SplitOn(line, " ")[2];
    if CdTarget(arena, cwd, name).Err? {
      FindAddedChild(arena, cwd, Directory(name));
    }
  }

  /** `parse_input`: `None` where the source panics; otherwise the file
      system `ParseSpec` describes, back at the root. */
  method ParseInput(input: string) returns (r: Option<FileSystem>)
    ensures r.None? <==> ParseSpec(input).None?
    ensures r.Some? ==>
      fresh(r.value) && fresh(r.value.tree) && r.value.Valid()
      && r.value.cwd == 0 && r.value.tree.arena == ParseSpec(input).value
  {
    var lines := Lines(Trim(input));
    if |lines| == 0 || lines[0] != "$ cd /" {
      return None;
    }
    r := Replay(lines[1..]);
  }

  /** The loop of `parse_input`, over the lines after "$ cd /". */
  method Replay(lines: seq<string>) returns (r: Option<FileSystem>)
    ensures r.None? <==> Interpret(Root, 0, lines).None?
    ensures r.Some? ==>
      fresh(r.value) && fresh(r.value.tree) && r.value.Valid()
      && r.value.cwd == 0 && r.value.tree.arena == Interpret(Root, 0, lines).value.0
  {
    var fs := new FileSystem();
    for i := 0 to |lines|
      invariant fs.Valid() && fresh(fs.tree)
      invariant Interpret(Root, 0, lines[..i]) == Some((fs.tree.arena, fs.cwd))
    {
      assert lines[..i + 1][..i] == lines[..i];
      var ok := Apply(fs, lines[i]);
      if !ok {
        InterpretStops(Root, 0, lines, i + 1);
        return None;
      }
    }
    assert lines[..|lines|] == lines;
    fs.CdRoot();
    return Some(fs);
  }

  /** One loop step of `parse_input`. */
  method Apply(fs: FileSystem, line: string) returns (ok: bool)
    requires fs.Valid()
    modifies fs, fs.tree
    ensures fs.Valid()
    ensures var e := Exec(old(fs.tree.arena), old(fs.cwd), line);
      (ok <==> e.Some?) && (ok ==> fs.tree.arena == e.value.0 && fs.cwd == e.value.1)
  {
    if line == "$ cd .." {
      var r := fs.Cd("..");
      return r.Pass?;
    } else if StartsWith(line, "$ cd") {
      var words := SplitOn(line, " ");
      if |words| < 3 {
        return false;
      }
      var name := words[2];
      var r := fs.Cd(name);
      if r.Pass? {
        return true;
      }
      fs.Mkdir(name);
      r := fs.Cd(name);
      return r.Pass?;
    } else if StartsWith(line, "$ ls") {
      return true;
    } else if StartsWith(line, "dir") {
      var split := SplitOnce(line, " ");
      if split.None? {
        return false;
      }
      var name := split.value.1;
      var b := fs.Exists(name);
      if !b {
        fs.Mkdir(name);
      }
      return true;
    } else {
      var split := SplitOnce(line, " ");
      if split.None? {
        return false;
      }
      var name := split.value.1;
      var b := fs.Exists(name);
      if !b {
        var size := ParseUSize(split.value.0);
        if size.None? {
          return false;
        }
        fs.Touch(name, size.value);
      }
      return true;
    }
  }

  /** The sum of the sizes below 100000. */
  function SmallTotal(sizes: seq<nat>): nat
  {
    if |sizes| == 0 then 0
    else SmallTotal(sizes[..|sizes| - 1]) + if sizes[|sizes| - 1] < 100000 then sizes[|sizes| - 1] else 0
  }

  /** `part_one`. */
  method PartOne(input: string) returns (r: Option<nat>)
    ensures r.None? <==> ParseSpec(input).None?
    ensures r.Some? ==> var a := ParseSpec(input).value; r.value == SmallTotal(DirSizes(a, |a|))
  {
    var fs := ParseInput(input);
    if fs.None? {
      return None;
    }
    var sizes := fs.value.RgetAllDirSizes();
    var total := SumSmall(sizes);
    return Some(total);
  }

  /** The loop of `part_one` adding up the sizes below 100000. */
  method SumSmall(sizes: seq<nat>) returns (total: nat)
    ensures total == SmallTotal(sizes)
  {
    total := 0;
    for i := 0 to |sizes|
      invariant total == SmallTotal(sizes[..i])
    {
      assert sizes[..i + 1][..i] == sizes[..i];
      if sizes[i] < 100000 {
        total := total + sizes[i];
      }
    }
    assert sizes[..|sizes|] == sizes;
  }

  /** The root is a directory, so its size is the first one listed. */
  lemma {:induction false} RootSizeListedFirst(arena: Arena, n: nat)
    requires ValidArena(arena) && 1 <= n <= |arena|
    ensures |DirSizes(arena, n)| >= 1 && DirSizes(arena, n)[0] == Size(arena, 0)
  {
    if n > 1 {
      RootSizeListedFirst(arena, n - 1);
    }
  }

  /** `filter(|size| size > need).min()`: the least element above `need`,
      if there is one. */
  method SmallestAbove(sizes: seq<nat>, need: int) returns (r: Option<nat>)
    ensures r.None? <==> forall x :: x in sizes ==> x <= need
    ensures r.Some? ==>
      r.value in sizes && r.value > need && forall x :: x in sizes && x > need ==> r.value <= x
  {
    r := None;
    for i := 0 to |sizes|
      invariant r.None? <==> forall j :: 0 <= j < i ==> sizes[j] <= need
      invariant r.Some? ==> r.value in sizes[..i] && r.value > need
      invariant forall j :: 0 <= j < i && sizes[j] > need ==> r.Some? && r.value <= sizes[j]
    {
      if sizes[i] > need && (r.None? || sizes[i] < r.value) {
        r := Some(sizes[i]);
      }
    }
    assert sizes[..|sizes|] == sizes;
    if r.None? {
      forall x | x in sizes
        ensures x <= need
      {
        var j :| 0 <= j < |sizes| && sizes[j] == x;
      }
    }
  }

  /** Whether both `usize` subtractions of `part_two` stay non-negative:
      the root's size lies between 40000000 and 70000000. */
  predicate SpaceFits(rootSize: nat) { 40000000 <= rootSize <= 70000000 }

  /** `part_two`: the smallest directory size above the space still to be
      freed, 30000000 - (70000000 - the root's size). `None` where the
      source panics: on a bad transcript, or when a subtraction would go
      below zero. The root itself is always above the need, so the
      `expect` never fires. */
  method PartTwo(input: string) returns (r: Option<nat>)
    ensures r.None? <==> ParseSpec(input).None? || !SpaceFits(Size(ParseSpec(input).value, 0))
    ensures r.Some? ==>
      var a := ParseSpec(input).value;
      var need := 30000000 - (70000000 - Size(a, 0));
      r.value in DirSizes(a, |a|) && r.value > need
      && forall x :: x in DirSizes(a, |a|) && x > need ==> r.value <= x
  {
    var fs := ParseInput(input);
    if fs.None? {
      return None;
    }
    ghost var a := ParseSpec(input).value;
    var sizes := fs.value.RgetAllDirSizes();
    var used := fs.value.Duh();
    if !SpaceFits(used) {
      return None;
    }
    var need := 30000000 - (70000000 - used);
    assert sizes == DirSizes(a, |a|) && need == 30000000 - (70000000 - Size(a, 0));
    RootSizeListedFirst(a, |a|);
    assert sizes[0] > need && sizes[0] in sizes;
    r := SmallestAbove(sizes, need);
  }
}
