/**
 * read_projects and project_id: the `name:id` project list and the lookup
 * of the project chosen in the drop-down.
 */
module ProjectSelection {
  import opened Wrappers
  import opened Text

  /** The project file as `open` and `readlines` see it. */
  datatype ProjectFile = NotFound | Unreadable | Lines(lines: seq<string>)

  /** One line: None when it has no ':', Some(Failure) when `name, id = line.split(':')` cannot unpack. */
  function ParseLine(line: string): Option<Result<(string, string), string>>
  {
    if ':' !in line then None
    else
      var pieces := Split(line, ':');
      if |pieces| == 2 then Some(Success((Strip(pieces[0]), Strip(pieces[1]))))
      else Some(Failure("too many values to unpack"))
  }

  /** The projects of the lines, in file order; None as soon as one line fails to unpack. */
  function ParseLines(lines: seq<string>): Option<seq<(string, string)>>
  {
    if lines == [] then Some([])
    else
      match ParseLines(lines[..|lines| - 1])
      case None => None
      case Some(projects) =>
        match ParseLine(lines[|lines| - 1])
        case None => Some(projects)
        case Some(Failure(_)) => None
        case Some(Success(project)) => Some(projects + [project])
  }

  function Projects(file: ProjectFile): Option<seq<(string, string)>>
  {
    match file
    case NotFound => None
    case Unreadable => None
    case Lines(lines) => ParseLines(lines)
  }

  /** read_projects. */
  method ReadProjects(file: ProjectFile) returns (projects: Option<seq<(string, string)>>)
    ensures projects == Projects(file)
  {
    if !file.Lines? {
      return None;
    }
    var lines := file.lines;
    var found: seq<(string, string)> := [];
    var i := 0;
    while i < |lines|
      invariant 0 <= i <= |lines|
      invariant ParseLines(lines[..i]) == Some(found)
    {
      var line := lines[i];
      assert lines[..i + 1][..i] == lines[..i];
      if ':' in line {
        var pieces := Split(line, ':');
        if |pieces| != 2 {
          ParseLinesFailureStays(lines, i + 1);
          return None;
        }
        found := found + [(Strip(pieces[0]), Strip(pieces[1]))];
      }
      i := i + 1;
    }
    assert lines[..i] == lines;
    return Some(found);
  }

  /** Once a prefix has failed, every longer prefix fails. */
  lemma {:induction false} ParseLinesFailureStays(lines: seq<string>, n: int)
    requires 0 <= n <= |lines| && ParseLines(lines[..n]) == None
    ensures ParseLines(lines) == None
    decreases |lines| - n
  {
    if n < |lines| {
      assert lines[..n + 1][..n] == lines[..n];
      ParseLinesFailureStays(lines, n + 1);
    } else {
      assert lines[..n] == lines;
    }
  }

  /**
   * The parse: it fails exactly when some line holds two or more ':';
   * otherwise its projects are the splits of the lines holding a ':'
   * (ParseLinesOrder gives their order).
   */
  lemma {:induction false} ParseLinesSpec(lines: seq<string>)
    ensures ParseLines(lines) == None <==>
      exists k :: 0 <= k < |lines| && ':' in lines[k] && |Split(lines[k], ':')| != 2
    ensures ParseLines(lines).Some? ==>
      forall p :: p in ParseLines(lines).value <==>
        exists k :: 0 <= k < |lines| && ParseLine(lines[k]) == Some(Success(p))
  {
    if lines != [] {
      var init := lines[..|lines| - 1];
      var last := lines[|lines| - 1];
      ParseLinesSpec(init);
      assert forall k :: 0 <= k < |init| ==> init[k] == lines[k];
      assert forall k :: 0 <= k < |lines| ==> k < |init| || lines[k] == last;
    }
  }

  /**
   * The order of the parse: the j-th project comes from line `idx[j]`, the
   * lines used are in increasing file order, and every line holding a ':'
   * is used, once.
   */
  lemma {:induction false} ParseLinesOrder(lines: seq<string>) returns (idx: seq<int>)
    requires ParseLines(lines).Some?
    ensures |idx| == |ParseLines(lines).value|
    ensures forall j :: 0 <= j < |idx| ==>
      0 <= idx[j] < |lines| && ParseLine(lines[idx[j]]) == Some(Success(ParseLines(lines).value[j]))
    ensures forall i, j :: 0 <= i < j < |idx| ==> idx[i] < idx[j]
    ensures forall k :: 0 <= k < |lines| && ParseLine(lines[k]).Some? ==> k in idx
  {
    if lines == [] {
      idx := [];
    } else {
      var init := lines[..|lines| - 1];
      var last := lines[|lines| - 1];
      var before := ParseLinesOrder(init);
      var projects := ParseLines(init).value;
      assert forall k :: 0 <= k < |init| ==> init[k] == lines[k];
      match ParseLine(last) {
        case None =>
          idx := before;
          assert ParseLines(lines).value == projects;
        case Some(Success(project)) =>
          idx := before + [|init|];
          assert ParseLines(lines).value == projects + [project];
      }
    }
  }

  /** A line with exactly one ':' gives the stripped name and id around it. */
  lemma OneColonLine(name: string, id: string)
    requires ':' !in name && ':' !in id
    ensures ParseLine(name + ":" + id) == Some(Success((Strip(name), Strip(id))))
  {
    SplitAround(name, ':', id);
  }

  /** The first project with the name, as (id, name). */
  function FirstNamed(projects: seq<(string, string)>, name: string): Option<(string, string)>
  {
    if projects == [] then None
    else if projects[0].0 == name then Some((projects[0].1, projects[0].0))
    else FirstNamed(projects[1..], name)
  }

  /**
   * project_id: `selectedName` is what the drop-down returned. None stands
   * for `st.stop()`: no project could be read, or no project has the name.
   */
  method ProjectId(file: ProjectFile, selectedName: string) returns (r: Option<(string, string)>)
    ensures r.None? <==> Projects(file).None? || Projects(file).value == [] || FirstNamed(Projects(file).value, selectedName).None?
    ensures r.Some? ==> r == FirstNamed(Projects(file).value, selectedName)
  {
    var projects := ReadProjects(file);
    if projects.None? || projects.value == [] {
      return None;
    }
    var list := projects.value;
    var i := 0;
    while i < |list|
      invariant 0 <= i <= |list|
      invariant FirstNamed(list, selectedName) == FirstNamed(list[i..], selectedName)
    {
      var (name, pid) := list[i];
      if name == selectedName {
        return Some((pid, name));
      }
      assert list[i..][1..] == list[i + 1..];
      i := i + 1;
    }
    return None;
  }

  /** The lookup returns the earliest project whose name matches, and fails only when none does. */
  lemma {:induction false} FirstNamedSpec(projects: seq<(string, string)>, name: string)
    ensures FirstNamed(projects, name).None? <==> forall k :: 0 <= k < |projects| ==> projects[k].0 != name
    ensures FirstNamed(projects, name).Some? ==>
      exists k :: 0 <= k < |projects| && projects[k].0 == name
        && FirstNamed(projects, name).value == (projects[k].1, name)
        && forall j :: 0 <= j < k ==> projects[j].0 != name
  {
    if projects != [] && projects[0].0 != name {
      FirstNamedSpec(projects[1..], name);
      assert forall k :: 0 <= k < |projects[1..]| ==> projects[1..][k] == projects[k + 1];
      if FirstNamed(projects[1..], name).Some? {
        var k :| 0 <= k < |projects[1..]| && projects[1..][k].0 == name
          && FirstNamed(projects[1..], name).value == (projects[1..][k].1, name)
          && forall j :: 0 <= j < k ==> projects[1..][j].0 != name;
        assert projects[k + 1].0 == name;
        assert forall j :: 0 <= j < k + 1 ==> projects[j].0 != name by {
          forall j | 0 <= j < k + 1 ensures projects[j].0 != name {
            if j > 0 { assert projects[j] == projects[1..][j - 1]; }
          }
        }
      }
      forall k | 0 <= k < |projects| && (forall i :: 0 <= i < |projects[1..]| ==> projects[1..][i].0 != name)
        ensures projects[k].0 != name
      {
        if k > 0 { assert projects[k] == projects[1..][k - 1]; }
      }
    }
  }
}
