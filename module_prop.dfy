/** The `module.prop` descriptor parser of GithubApi.get_module_prop. */
module ModuleProp {
  import opened Wrappers

  // ---------------------------------------------------------------------------
  // Splitting the text into lines (Python's str.splitlines without keepends)
  // ---------------------------------------------------------------------------

  /** The characters str.splitlines treats as line boundaries. */
  predicate IsLineBreak(c: char) {
    c == '\n' || c == '\r' || c == '\U{B}' || c == '\U{C}' || c == '\U{1C}' || c == '\U{1D}'
    || c == '\U{1E}' || c == '\U{85}' || c == '\U{2028}' || c == '\U{2029}'
  }

  predicate NoLineBreak(s: string) {
    forall j :: 0 <= j < |s| ==> !IsLineBreak(s[j])
  }

  /** Index of the first line boundary of `s`, or |s| when there is none. */
  function FirstBreak(s: string): (i: nat)
    ensures i <= |s|
    ensures NoLineBreak(s[..i])
    ensures i < |s| ==> IsLineBreak(s[i])
  {
    if s == [] then 0
    else if IsLineBreak(s[0]) then 0
    else
      var i := 1 + FirstBreak(s[1..]);
      assert s[..i] == [s[0]] + s[1..][..i - 1];
      i
  }

  /** The lines of `s`: "\r\n" is one boundary, and a boundary at the very end
      does not open an empty last line. */
  function SplitLines(s: string): (lines: seq<string>)
    ensures forall k :: 0 <= k < |lines| ==> NoLineBreak(lines[k])
    decreases |s|
  {
    if s == [] then []
    else
      var i := FirstBreak(s);
      if i == |s| then assert s[..i] == s; [s]
      else
        var next := if s[i] == '\r' && i + 1 < |s| && s[i + 1] == '\n' then i + 2 else i + 1;
        [s[..i]] + SplitLines(s[next..])
  }

  /** A line boundary as text: one boundary character, or "\r\n". */
  predicate IsSeparator(sep: string) {
    sep == "\r\n" || (|sep| == 1 && IsLineBreak(sep[0]))
  }

  /** The lines joined back with `sep` between them. */
  function JoinLines(lines: seq<string>, sep: string): string {
    if lines == [] then ""
    else if |lines| == 1 then lines[0]
    else lines[0] + sep + JoinLines(lines[1..], sep)
  }

  /** The lines, each followed by `sep`. */
  function TerminateLines(lines: seq<string>, sep: string): string {
    if lines == [] then "" else lines[0] + sep + TerminateLines(lines[1..], sep)
  }

  lemma FirstBreakOfJoin(line: string, rest: string)
    requires NoLineBreak(line)
    ensures FirstBreak(line + rest) == |line| + FirstBreak(rest)
    decreases |line|
  {
    if line == [] {
      assert line + rest == rest;
    } else {
      assert (line + rest)[0] == line[0] && !IsLineBreak(line[0]);
      assert (line + rest)[1..] == line[1..] + rest;
      assert NoLineBreak(line[1..]) by {
        forall j | 0 <= j < |line[1..]| ensures !IsLineBreak(line[1..][j]) {
          assert line[1..][j] == line[j + 1];
        }
      }
      FirstBreakOfJoin(line[1..], rest);
    }
  }

  /** The first line ends at the first boundary; "\r\n" is one boundary, and a
      lone "\r" is one when no "\n" follows it. */
  lemma SplitLinesStep(line: string, sep: string, rest: string)
    requires NoLineBreak(line) && IsSeparator(sep)
    requires sep == "\r" ==> rest == [] || rest[0] != '\n'
    ensures SplitLines(line + sep + rest) == [line] + SplitLines(rest)
  {
    var s := line + sep + rest;
    assert s == line + (sep + rest);
    FirstBreakOfJoin(line, sep + rest);
    assert (sep + rest)[0] == sep[0];
    var i := |line|;
    assert FirstBreak(s) == i;
    assert s[..i] == line;
    assert s[i + |sep|..] == rest;
  }

  /** Text built from break-free lines never starts with the "\n" that would merge
      with a preceding lone "\r". */
  lemma {:induction false} JoinedHead(lines: seq<string>, sep: string)
    requires IsSeparator(sep) && sep != "\n"
    requires forall k :: 0 <= k < |lines| ==> NoLineBreak(lines[k])
    requires lines != [] ==> lines[|lines| - 1] != ""
    ensures JoinLines(lines, sep) == [] || JoinLines(lines, sep)[0] != '\n'
  {
    if |lines| > 1 {
      var s := JoinLines(lines, sep);
      assert s == lines[0] + (sep + JoinLines(lines[1..], sep));
      if lines[0] != "" {
        assert s[0] == lines[0][0];
      } else {
        assert s[0] == sep[0];
      }
    } else if |lines| == 1 {
      assert lines[0][0] != '\n';
    }
  }

  lemma {:induction false} TerminatedHead(lines: seq<string>, sep: string)
    requires IsSeparator(sep) && sep != "\n"
    requires forall k :: 0 <= k < |lines| ==> NoLineBreak(lines[k])
    ensures TerminateLines(lines, sep) == [] || TerminateLines(lines, sep)[0] != '\n'
  {
    if lines != [] {
      var s := TerminateLines(lines, sep);
      assert s == lines[0] + (sep + TerminateLines(lines[1..], sep));
      if lines[0] != "" {
        assert s[0] == lines[0][0];
      } else {
        assert s[0] == sep[0];
      }
    }
  }

  /** A text of non-empty lines joined by one kind of boundary splits back into
      those lines. */
  lemma {:induction false} SplitJoinRoundTrip(lines: seq<string>, sep: string)
    requires IsSeparator(sep)
    requires forall k :: 0 <= k < |lines| ==> NoLineBreak(lines[k])
    requires lines != [] ==> lines[|lines| - 1] != ""
    ensures SplitLines(JoinLines(lines, sep)) == lines
  {
    if lines == [] {
    } else if |lines| == 1 {
      var s := lines[0];
      assert s[..|s|] == s;
      FirstBreakOfJoin(s, "");
      assert s + "" == s;
    } else {
      if sep == "\r" {
        JoinedHead(lines[1..], sep);
      }
      SplitLinesStep(lines[0], sep, JoinLines(lines[1..], sep));
      SplitJoinRoundTrip(lines[1..], sep);
      assert lines == [lines[0]] + lines[1..];
    }
  }

  /** A text whose every line, the last included, ends with a boundary splits back
      into those lines: the boundary at the end opens no empty line, and empty
      lines in between are kept. */
  lemma {:induction false} SplitTerminatedRoundTrip(lines: seq<string>, sep: string)
    requires IsSeparator(sep)
    requires forall k :: 0 <= k < |lines| ==> NoLineBreak(lines[k])
    ensures SplitLines(TerminateLines(lines, sep)) == lines
  {
    if lines != [] {
      if sep == "\r" {
        TerminatedHead(lines[1..], sep);
      }
      SplitLinesStep(lines[0], sep, TerminateLines(lines[1..], sep));
      SplitTerminatedRoundTrip(lines[1..], sep);
      assert lines == [lines[0]] + lines[1..];
    }
  }

  // ---------------------------------------------------------------------------
  // One line: `key=value`, split at the first '='
  // ---------------------------------------------------------------------------

  /** Index of the first '=' of a line that holds one. */
  function FirstEquals(line: string): (i: nat)
    requires '=' in line
    ensures i < |line| && line[i] == '='
    ensures '=' !in line[..i]
  {
    if line[0] == '=' then 0
    else
      var i := 1 + FirstEquals(line[1..]);
      assert line[..i] == [line[0]] + line[1..][..i - 1];
      i
  }

  /** `line.split("=", 1)`: the key is what precedes the first '=', the value
      everything after it, untrimmed. */
  function SplitAtFirst(line: string): (kv: (string, string))
    requires '=' in line
    ensures '=' !in kv.0
    ensures kv.0 + "=" + kv.1 == line
  {
    var i := FirstEquals(line);
    assert line == line[..i] + "=" + line[i + 1..];
    (line[..i], line[i + 1..])
  }

  /** The split is the only one whose key holds no '='. */
  lemma SplitAtFirstUnique(line: string, key: string, value: string)
    requires '=' !in key && key + "=" + value == line
    ensures '=' in line
    ensures SplitAtFirst(line) == (key, value)
  {
    assert line[|key|] == '=';
    var i := FirstEquals(line);
    assert line[..i] == key;
    assert line[i + 1..] == value;
  }

  /** The line sets `key`. */
  predicate Declares(line: string, key: string) {
    '=' in line && SplitAtFirst(line).0 == key
  }

  // ---------------------------------------------------------------------------
  // The whole descriptor
  // ---------------------------------------------------------------------------

  /** The dictionary built from `lines` in order: lines without '=' are skipped
      and a later line overwrites the value of an earlier one with the same key. */
  function PropMap(lines: seq<string>): (m: map<string, string>)
    ensures forall key :: key in m ==> '=' !in key
  {
    if lines == [] then map[]
    else
      var m := PropMap(lines[..|lines| - 1]);
      var line := lines[|lines| - 1];
      if '=' in line then
        var kv := SplitAtFirst(line);
        m[kv.0 := kv.1]
      else m
  }

  /** The parsed descriptor of a `module.prop` text, None when the file is absent. */
  function Descriptor(prop: Option<string>): (descriptor: Option<map<string, string>>)
    ensures descriptor.None? <==> prop.None?
    ensures descriptor.Some? ==> forall key :: key in descriptor.value ==> '=' !in key
  {
    match prop
    case None => None
    case Some(text) => Some(PropMap(SplitLines(text)))
  }

  /** The keys are exactly the keys declared by the lines that hold a '='. */
  lemma {:induction false} PropMapKeys(lines: seq<string>, key: string)
    ensures key in PropMap(lines) <==> exists i :: 0 <= i < |lines| && Declares(lines[i], key)
  {
    if lines != [] {
      var init := lines[..|lines| - 1];
      PropMapKeys(init, key);
      if key in PropMap(init) {
        var i :| 0 <= i < |init| && Declares(init[i], key);
        assert lines[i] == init[i];
      }
      if exists i :: 0 <= i < |lines| && Declares(lines[i], key) {
        var i :| 0 <= i < |lines| && Declares(lines[i], key);
        if i < |init| {
          assert init[i] == lines[i];
        }
      }
    }
  }

  /** The value of a key is the one on the last line that declares it. */
  lemma {:induction false} PropMapLastWins(lines: seq<string>, i: nat, key: string)
    requires i < |lines| && Declares(lines[i], key)
    requires forall j :: i < j < |lines| ==> !Declares(lines[j], key)
    ensures key in PropMap(lines) && PropMap(lines)[key] == SplitAtFirst(lines[i]).1
  {
    var init := lines[..|lines| - 1];
    if i < |lines| - 1 {
      forall j | i < j < |init| ensures !Declares(init[j], key) {
        assert init[j] == lines[j];
      }
      PropMapLastWins(init, i, key);
      assert !Declares(lines[|lines| - 1], key);
    }
  }

  /** Every entry is a line of the text read back: `key + "=" + value`. */
  lemma {:induction false} PropMapEntriesAreLines(lines: seq<string>, key: string)
    requires key in PropMap(lines)
    ensures exists i :: 0 <= i < |lines| && lines[i] == key + "=" + PropMap(lines)[key]
  {
    var init := lines[..|lines| - 1];
    var last := lines[|lines| - 1];
    if Declares(last, key) {
      assert lines[|lines| - 1] == key + "=" + PropMap(lines)[key];
    } else {
      PropMapEntriesAreLines(init, key);
      var i :| 0 <= i < |init| && init[i] == key + "=" + PropMap(init)[key];
      assert lines[i] == init[i];
    }
  }

  /** A line without '=' may be removed from anywhere without changing the result. */
  lemma {:induction false} PropMapIgnoresLine(before: seq<string>, line: string, after: seq<string>)
    requires '=' !in line
    ensures PropMap(before + [line] + after) == PropMap(before + after)
  {
    if after == [] {
      assert (before + [line] + after)[..|before| + 1 - 1] == before;
      assert before + after == before;
    } else {
      var a := after[..|after| - 1];
      PropMapIgnoresLine(before, line, a);
      assert (before + [line] + after)[..|before + [line] + after| - 1] == before + [line] + a;
      assert (before + after)[..|before + after| - 1] == before + a;
    }
  }

  /** A descriptor consisting of the one line `id=<id>` declares exactly that id. */
  lemma IdLineDescriptor(id: string)
    requires NoLineBreak(id)
    ensures Descriptor(Some("id=" + id + "\n")) == Some(map["id" := id])
  {
    var line := "id=" + id;
    assert NoLineBreak(line) by {
      forall j | 0 <= j < |line| ensures !IsLineBreak(line[j]) {
        if j >= 3 {
          assert line[j] == id[j - 3];
        }
      }
    }
    assert SplitLines(line + "\n") == [line] by {
      SplitLinesStep(line, "\n", "");
      assert line + "\n" + "" == line + "\n";
    }
    SplitAtFirstUnique(line, "id", id);
    assert PropMap([line]) == map["id" := id] by {
      assert [line][..0] == [];
    }
  }

  /** GithubApi.get_module_prop: None when `module.prop` is absent, otherwise the
      dictionary built line by line. */
  method GetModuleProp(prop: Option<string>) returns (moduleProp: Option<map<string, string>>)
    ensures moduleProp.None? <==> prop.None?
    ensures moduleProp == Descriptor(prop)
  {
    if prop.None? {
      return None;
    }
    var lines := SplitLines(prop.value);
    var m: map<string, string> := map[];
    for n := 0 to |lines|
      invariant m == PropMap(lines[..n])
    {
      var line := lines[n];
      assert lines[..n + 1][..n] == lines[..n];
      if '=' in line {
        var kv := SplitAtFirst(line);
        m := m[kv.0 := kv.1];
      }
    }
    assert lines[..|lines|] == lines;
    return Some(m);
  }
}
