/**
  The command shell of fs/vfs.cpp, without its console: the space-splitting
  tokenizer, the `rmdir` emptiness test, the in-place `mv` rename, and one
  round of the command dispatch. The line the shell reads and the extra line
  `edit` reads are parameters; what the shell would print is a `Reply`.
 */
module Shell {
  import opened CBytes
  import opened Layout
  import opened Alloc
  import opened Volume

  const SPACE: byte := 32
  const SLASH: byte := 47

  /** The index of the first space at or after from, or |s| if there is none. */
  function NextSpace(s: Bytes, from: nat): (i: nat)
    requires from <= |s|
    ensures from <= i <= |s|
    ensures i < |s| ==> s[i] == SPACE
    decreases |s| - from
  {
    if from == |s| || s[from] == SPACE then from else NextSpace(s, from + 1)
  }

  /** No space lies between from and NextSpace(s, from). */
  lemma {:induction false} NextSpaceSkipsNonSpaces(s: Bytes, from: nat)
    requires from <= |s|
    ensures forall m :: from <= m < NextSpace(s, from) ==> s[m] != SPACE
    decreases |s| - from
  {
    if from < |s| && s[from] != SPACE {
      NextSpaceSkipsNonSpaces(s, from + 1);
    }
  }

  /** NextSpace is the first space: a space-free stretch ending at a space or the end pins it down. */
  lemma {:induction false} NextSpaceIs(s: Bytes, from: nat, i: nat)
    requires from <= i <= |s|
    requires forall m :: from <= m < i ==> s[m] != SPACE
    requires i < |s| ==> s[i] == SPACE
    ensures NextSpace(s, from) == i
    decreases i - from
  {
    if from < i {
      NextSpaceIs(s, from + 1, i);
    }
  }

  /**
    What repeated `std::getline(ss, part, ' ')` extracts once the stream
    stands at pos: each call takes the bytes up to the next space and
    consumes that space; a call that finds the stream exhausted fails, so a
    trailing space adds no empty token.
   */
  function TokensFrom(s: Bytes, pos: nat): (r: seq<Bytes>)
    requires pos <= |s|
    decreases |s| - pos
  {
    if pos == |s| then []
    else
      var end := NextSpace(s, pos);
      if end == |s| then [s[pos..end]] else [s[pos..end]] + TokensFrom(s, end + 1)
  }

  /** The tokens `split_cmd` returns for a whole line. */
  function Tokens(s: Bytes): (r: seq<Bytes>)
    ensures |r| >= 1 <==> s != []
  {
    TokensFrom(s, 0)
  }

  /** The tokens joined back with single spaces. */
  function Join(ts: seq<Bytes>): Bytes {
    if ts == [] then []
    else if |ts| == 1 then ts[0]
    else ts[0] + [SPACE] + Join(ts[1..])
  }

  /** One getline: the part up to the next space, then the tokens after that space. */
  lemma TokensFromStep(s: Bytes, pos: nat, end: nat)
    requires pos < |s| && end == NextSpace(s, pos)
    ensures TokensFrom(s, pos) == [s[pos..end]] + TokensFrom(s, if end < |s| then end + 1 else end)
  {
  }

  /** One round of the `split_cmd` loop keeps its invariant. */
  lemma GetlineStep(cmd: Bytes, pos: nat, end: nat, ans: seq<Bytes>)
    requires pos <= end <= |cmd| && pos < |cmd|
    requires forall m :: pos <= m < end ==> cmd[m] != SPACE
    requires end < |cmd| ==> cmd[end] == SPACE
    requires ans + TokensFrom(cmd, pos) == Tokens(cmd)
    ensures (ans + [cmd[pos..end]]) + TokensFrom(cmd, if end < |cmd| then end + 1 else end) == Tokens(cmd)
  {
    NextSpaceIs(cmd, pos, end);
    TokensFromStep(cmd, pos, end);
    var next := if end < |cmd| then end + 1 else end;
    assert (ans + [cmd[pos..end]]) + TokensFrom(cmd, next) == ans + TokensFrom(cmd, pos);
  }

  /** The scan one getline makes: forward to the next space or the end of the line. */
  method ScanPart(cmd: Bytes, pos: nat) returns (end: nat)
    requires pos <= |cmd|
    ensures pos <= end <= |cmd|
    ensures forall m :: pos <= m < end ==> cmd[m] != SPACE
    ensures end < |cmd| ==> cmd[end] == SPACE
  {
    end := pos;
    while end < |cmd| && cmd[end] != SPACE
      invariant pos <= end <= |cmd|
      invariant forall m :: pos <= m < end ==> cmd[m] != SPACE
    {
      end := end + 1;
    }
  }

  /** `split_cmd`: one getline per round, each pushing the part it extracted. */
  method SplitCmd(cmd: Bytes) returns (ans: seq<Bytes>)
    ensures ans == Tokens(cmd)
  {
    ans := [];
    var pos := 0;
    while pos < |cmd|
      invariant 0 <= pos <= |cmd|
      invariant ans + TokensFrom(cmd, pos) == Tokens(cmd)
      decreases |cmd| - pos
    {
      var end := ScanPart(cmd, pos);
      GetlineStep(cmd, pos, end, ans);
      ans := ans + [cmd[pos..end]];
      pos := if end < |cmd| then end + 1 else end;
    }
  }

  /** No token holds a space. */
  lemma {:induction false} TokensHaveNoSpace(s: Bytes, pos: nat)
    requires pos <= |s|
    ensures forall t :: 0 <= t < |TokensFrom(s, pos)| ==> SPACE !in TokensFrom(s, pos)[t]
    decreases |s| - pos
  {
    if pos < |s| {
      var end := NextSpace(s, pos);
      var part := s[pos..end];
      NextSpaceSkipsNonSpaces(s, pos);
      assert SPACE !in part by {
        forall m | 0 <= m < |part| ensures part[m] != SPACE {
          assert part[m] == s[pos + m];
        }
      }
      if end < |s| {
        TokensHaveNoSpace(s, end + 1);
      }
    }
  }

  /** A line with one trailing space taken off, as the last getline leaves it. */
  function DropTrailingSpace(s: Bytes): Bytes {
    if s != [] && s[|s| - 1] == SPACE then s[..|s| - 1] else s
  }

  /** Only the tail decides which trailing space is dropped. */
  lemma DropTrailingSpaceAfter(p: Bytes, u: Bytes)
    requires u != []
    ensures DropTrailingSpace(p + [SPACE] + u) == p + [SPACE] + DropTrailingSpace(u)
  {
    var s := p + [SPACE] + u;
    if u[|u| - 1] == SPACE {
      assert s[..|s| - 1] == p + [SPACE] + u[..|u| - 1];
    }
  }

  /** Joining a first token onto the rest puts one space between them. */
  lemma JoinCons(part: Bytes, ts: seq<Bytes>)
    requires ts != []
    ensures Join([part] + ts) == part + [SPACE] + Join(ts)
  {
    assert ([part] + ts)[1..] == ts;
  }

  /** The rest of a line from a space on: what precedes it, the space, what follows. */
  lemma SplitAtSpace(s: Bytes, pos: nat, end: nat)
    requires pos <= end < |s|
    ensures s[pos..] == s[pos..end] + [s[end]] + s[end + 1..]
  {
  }

  /** Joining the tokens from pos on restores the rest of the line, less one trailing space. */
  predicate Restores(s: Bytes, pos: nat)
    requires pos <= |s|
  {
    Join(TokensFrom(s, pos)) == DropTrailingSpace(s[pos..])
  }

  /** The last token: the rest of the line holds no space but possibly a final one. */
  lemma JoinLastToken(s: Bytes, pos: nat)
    requires pos < |s| && NextSpace(s, pos) + 1 >= |s|
    ensures Restores(s, pos)
  {
    var end := NextSpace(s, pos);
    var part := s[pos..end];
    TokensFromStep(s, pos, end);
    assert TokensFrom(s, pos) == [part];
    if end == |s| {
      assert s[pos..] == part;
      NextSpaceSkipsNonSpaces(s, pos);
      assert s[|s| - 1] != SPACE;
    } else {
      SplitAtSpace(s, pos, end);
      assert s[pos..] == part + [SPACE];
      assert (part + [SPACE])[..|part|] == part;
    }
  }

  /** A token followed by a space and more of the line. */
  lemma JoinInnerToken(s: Bytes, pos: nat, end: nat)
    requires pos < |s| && end == NextSpace(s, pos) && end + 1 < |s|
    requires Restores(s, end + 1)
    ensures Restores(s, pos)
  {
    var part := s[pos..end];
    var tr := TokensFrom(s, end + 1);
    TokensFromStep(s, pos, end);
    assert TokensFrom(s, pos) == [part] + tr;
    JoinCons(part, tr);
    SplitAtSpace(s, pos, end);
    DropTrailingSpaceAfter(part, s[end + 1..]);
  }

  /** Joining the tokens gives back the rest of the line, less one trailing space. */
  lemma {:induction false} JoinTokensFrom(s: Bytes, pos: nat)
    requires pos <= |s|
    ensures Restores(s, pos)
    decreases |s| - pos
  {
    if pos < |s| {
      var end := NextSpace(s, pos);
      if end + 1 >= |s| {
        JoinLastToken(s, pos);
      } else {
        JoinTokensFrom(s, end + 1);
        JoinInnerToken(s, pos, end);
      }
    }
  }

  /** `split_cmd` loses nothing but one trailing space: joining its tokens with spaces restores the line. */
  lemma JoinTokens(s: Bytes)
    ensures Join(Tokens(s)) == DropTrailingSpace(s)
  {
    JoinTokensFrom(s, 0);
    assert s[0..] == s;
  }

  /** Just after a space followed by another, the next getline extracts an empty part. */
  lemma EmptyPartAfterSpace(s: Bytes, i: nat)
    requires i + 1 < |s| && s[i + 1] == SPACE
    ensures TokensFrom(s, i + 1) == [[]] + TokensFrom(s, i + 2)
  {
    NextSpaceIs(s, i + 1, i + 1);
    TokensFromStep(s, i + 1, i + 1);
    assert s[i + 1..i + 1] == [];
  }

  /** Every space is consumed by some getline: the tokenizer resumes just after it. */
  lemma {:induction false} TokensResumeAfterSpace(s: Bytes, pos: nat, j: nat) returns (p: seq<Bytes>)
    requires pos <= j < |s| && s[j] == SPACE
    ensures TokensFrom(s, pos) == p + TokensFrom(s, j + 1)
    decreases j - pos
  {
    var end := NextSpace(s, pos);
    NextSpaceAtMost(s, pos, j);
    TokensFromStep(s, pos, end);
    if end == j {
      p := [s[pos..end]];
    } else {
      var q := TokensResumeAfterSpace(s, end + 1, j);
      PrependPart(TokensFrom(s, pos), s[pos..end], TokensFrom(s, end + 1), q, TokensFrom(s, j + 1));
      p := [s[pos..end]] + q;
    }
  }

  /** The scan stops at the latest at any space ahead of it. */
  lemma NextSpaceAtMost(s: Bytes, pos: nat, j: nat)
    requires pos <= j < |s| && s[j] == SPACE
    ensures NextSpace(s, pos) <= j
  {
    NextSpaceSkipsNonSpaces(s, pos);
  }

  /** Regrouping a part in front of a split list of tokens. */
  lemma PrependPart(all: seq<Bytes>, part: Bytes, mid: seq<Bytes>, q: seq<Bytes>, rest: seq<Bytes>)
    requires all == [part] + mid && mid == q + rest
    ensures all == ([part] + q) + rest
  {
  }

  /** Two spaces in a row in a line yield an empty token between them. */
  lemma ConsecutiveSpaces(s: Bytes, i: nat) returns (p: seq<Bytes>)
    requires i + 1 < |s| && s[i] == SPACE && s[i + 1] == SPACE
    ensures Tokens(s) == p + [[]] + TokensFrom(s, i + 2)
  {
    p := TokensResumeAfterSpace(s, 0, i);
    EmptyPartAfterSpace(s, i);
  }

  /** `fname != dirname && fname.rfind(dirname + "/", 0) == 0`: name lies under dirname. */
  predicate InDir(name: Bytes, dirname: Bytes) {
    name != dirname && dirname + [SLASH] <= name
  }

  /** The inequality in the test is implied by the prefix check. */
  lemma InDirIsPrefix(name: Bytes, dirname: Bytes)
    ensures InDir(name, dirname) <==> dirname + [SLASH] <= name
  {
    if dirname + [SLASH] <= name {
      assert |name| > |dirname|;
    }
  }

  /** The `rmdir` scan: the C string of each listed name is tested against dirname. */
  method DirIsEmpty(files: seq<FileEntry>, dirname: Bytes) returns (isEmpty: bool)
    ensures isEmpty <==> forall i :: 0 <= i < |files| ==> !InDir(CStr(files[i].name), dirname)
  {
    isEmpty := true;
    for i := 0 to |files|
      invariant isEmpty
      invariant forall j :: 0 <= j < i ==> !InDir(CStr(files[j].name), dirname)
    {
      var fname := CStr(files[i].name);
      if fname != dirname && dirname + [SLASH] <= fname {
        isEmpty := false;
        break;
      }
    }
  }

  /** What one round of the shell reports. */
  datatype Reply =
    | Idle                          // empty line: nothing to do
    | Quit
    | HelpText
    | Listing(files: seq<FileEntry>)
    | Shown(content: Bytes)
    | Usage(command: Bytes)
    | DirNotEmpty(dirname: Bytes)
    | SourceNotFound(src: Bytes)
    | UnknownCommand(word: Bytes)
    | Error(error: FsError)         // a runtime_error caught by the loop
    | Ok

  /** `rmdir dirname`: refuses while some entry lies under dirname, else removes dirname. */
  method Rmdir(fs: MyFs, dirname: Bytes) returns (r: Reply)
    requires fs.Valid()
    modifies fs, fs.dev
    ensures fs.Valid()
    ensures r.DirNotEmpty? <==> exists i :: 0 <= i < |old(fs.entries)| && InDir(CStr(old(fs.entries)[i].name), dirname)
    ensures r.DirNotEmpty? ==> r.dirname == dirname && unchanged(fs) && unchanged(fs.dev)
    ensures r.Error? <==>
      (forall i :: 0 <= i < |old(fs.entries)| ==> !InDir(CStr(old(fs.entries)[i].name), dirname))
      && Lookup(old(fs.entries), dirname).None?
    ensures r.Error? ==> r.error == NotFound && unchanged(fs) && unchanged(fs.dev)
    ensures r.Ok? ==>
      && (forall i :: 0 <= i < |old(fs.entries)| ==> !InDir(CStr(old(fs.entries)[i].name), dirname))
      && Lookup(old(fs.entries), dirname).Some?
      && var k := Lookup(old(fs.entries), dirname).value;
         && fs.entries == old(fs.entries)[..k] + old(fs.entries)[k + 1..]
         && fs.dev.bytes == SavedImage(old(fs.dev.bytes), fs.numFiles, fs.entries, fs.entrySize)
    ensures r.DirNotEmpty? || r.Error? || r.Ok?
  {
    var files := fs.ListDir(ROOT);
    var isEmpty := DirIsEmpty(files.value, dirname);
    if !isEmpty {
      return DirNotEmpty(dirname);
    }
    var removed := fs.RemoveFile(dirname);
    if removed.Failed? {
      return Error(removed.error);
    }
    return Ok;
  }

  /**
    `mv src dst`: renames the entry found for src in place to the first 19
    bytes of dst and saves the table; there is no check on dst.
   */
  method Mv(fs: MyFs, src: Bytes, dst: Bytes) returns (r: Reply)
    requires fs.Valid()
    modifies fs, fs.dev
    ensures fs.Valid()
    ensures r.SourceNotFound? <==> Lookup(old(fs.entries), src).None?
    ensures r.SourceNotFound? ==> r.src == src && unchanged(fs) && unchanged(fs.dev)
    ensures !r.SourceNotFound? ==>
      && r == Ok
      && var k := Lookup(old(fs.entries), src).value;
         && fs.entries == Renamed(old(fs.entries), k, dst)
         && fs.numFiles == old(fs.numFiles)
         && fs.dev.bytes == SavedImage(old(fs.dev.bytes), fs.numFiles, fs.entries, fs.entrySize)
  {
    var found := fs.FindFile(src);
    if found.None? {
      return SourceNotFound(src);
    }
    var k := found.value;
    fs.entries := fs.entries[k := fs.entries[k].(name := StoredName(dst))];
    fs.SaveFileEntries();
    return Ok;
  }

  /** The entries after `mv` renamed entry k to the stored form of dst. */
  function Renamed(es: seq<FileEntry>, k: nat, dst: Bytes): (r: seq<FileEntry>)
    requires k < |es|
    ensures |r| == |es| && r[k].name == StoredName(dst)
    ensures forall j :: 0 <= j < |es| && j != k ==> r[j] == es[j]
    ensures r[k].size == es[k].size && r[k].blockStart == es[k].blockStart && r[k].isDirectory == es[k].isDirectory
  {
    es[k := es[k].(name := StoredName(dst))]
  }

  /** With no collision check, `mv` keeps names distinct exactly when no other entry already bears the new name. */
  lemma RenameKeepsDistinctIff(es: seq<FileEntry>, k: nat, dst: Bytes)
    requires DistinctNames(es) && k < |es|
    ensures DistinctNames(Renamed(es, k, dst)) <==>
      forall j :: 0 <= j < |es| && j != k ==> es[j].name != StoredName(dst)
  {
    var r := Renamed(es, k, dst);
    if exists j :: 0 <= j < |es| && j != k && es[j].name == StoredName(dst) {
      var j :| 0 <= j < |es| && j != k && es[j].name == StoredName(dst);
      if j < k {
        assert r[j].name == r[k].name;
      } else {
        assert r[k].name == r[j].name;
      }
    }
  }

  const LIST_CMD: Bytes := Ascii("ls")
  const CONTENT_CMD: Bytes := Ascii("cat")
  const CREATE_FILE_CMD: Bytes := Ascii("touch")
  const EDIT_CMD: Bytes := Ascii("edit")
  const REMOVE_CMD: Bytes := Ascii("rm")
  const HELP_CMD: Bytes := Ascii("help")
  const EXIT_CMD: Bytes := Ascii("exit")
  const MKDIR_CMD: Bytes := Ascii("mkdir")
  const RMDIR_CMD: Bytes := Ascii("rmdir")
  const MV_CMD: Bytes := Ascii("mv")

  /** The branch of the dispatch a command word selects. */
  datatype Command = Exit | Help | List | Touch | Cat | Edit | Remove | MakeDir | RemoveDir | Move | Unknown

  /** The dispatch compares the word with each command name in turn. */
  function CommandOf(word: Bytes): (c: Command)
    ensures c == Unknown <==>
      word !in {EXIT_CMD, HELP_CMD, LIST_CMD, CREATE_FILE_CMD, CONTENT_CMD, EDIT_CMD, REMOVE_CMD, MKDIR_CMD, RMDIR_CMD, MV_CMD}
  {
    if word == EXIT_CMD then Exit
    else if word == HELP_CMD then Help
    else if word == LIST_CMD then List
    else if word == CREATE_FILE_CMD then Touch
    else if word == CONTENT_CMD then Cat
    else if word == EDIT_CMD then Edit
    else if word == REMOVE_CMD then Remove
    else if word == MKDIR_CMD then MakeDir
    else if word == RMDIR_CMD then RemoveDir
    else if word == MV_CMD then Move
    else Unknown
  }

  /** Every command name selects its own branch: the names are pairwise different. */
  lemma CommandNamesSelectTheirBranch()
    ensures CommandOf(EXIT_CMD) == Exit && CommandOf(HELP_CMD) == Help
    ensures CommandOf(LIST_CMD) == List && CommandOf(CREATE_FILE_CMD) == Touch
    ensures CommandOf(CONTENT_CMD) == Cat && CommandOf(EDIT_CMD) == Edit
    ensures CommandOf(REMOVE_CMD) == Remove && CommandOf(MKDIR_CMD) == MakeDir
    ensures CommandOf(RMDIR_CMD) == RemoveDir && CommandOf(MV_CMD) == Move
  {
    assert EXIT_CMD[0] == 101 && HELP_CMD[0] == 104 && LIST_CMD[0] == 108;
    assert CREATE_FILE_CMD[0] == 116 && CONTENT_CMD[0] == 99 && EDIT_CMD[0] == 101;
    assert REMOVE_CMD[0] == 114 && MKDIR_CMD[0] == 109 && RMDIR_CMD[0] == 114 && MV_CMD[0] == 109;
    assert |EDIT_CMD| == 4 && |EXIT_CMD| == 4 && EDIT_CMD[1] == 100 && EXIT_CMD[1] == 120;
    assert |REMOVE_CMD| == 2 && |RMDIR_CMD| == 5;
    assert |MKDIR_CMD| == 5 && |MV_CMD| == 2;
  }

  /** How many operands a command needs before the dispatch acts on it. */
  function Arity(c: Command): nat {
    match c
    case Touch | Cat | Edit | Remove | MakeDir | RemoveDir => 1
    case Move => 2
    case _ => 0
  }

  /** A command given fewer operands than it needs, which the shell answers with a usage line. */
  predicate TooFewOperands(cmd: seq<Bytes>)
    requires |cmd| >= 1
  {
    |cmd| - 1 < Arity(CommandOf(cmd[0]))
  }

  /** Commands that can change the volume. */
  predicate MayChangeVolume(c: Command) {
    c in {Touch, Edit, Remove, MakeDir, RemoveDir, Move}
  }

  /**
    One round of `run_vfs` on the line cmdline; edit takes its new content
    from nextLine. Only a mutating command with enough operands can change
    the volume.
   */
  method RunCommand(fs: MyFs, cmdline: Bytes, nextLine: Bytes) returns (r: Reply)
    requires fs.Valid()
    modifies fs, fs.dev
    ensures fs.Valid()
    ensures cmdline == [] ==> r == Idle && unchanged(fs) && unchanged(fs.dev)
    ensures cmdline != [] ==>
      var cmd := Tokens(cmdline);
      var c := CommandOf(cmd[0]);
      && (r == Quit <==> c == Exit)
      && (r == HelpText <==> c == Help)
      && (r.Usage? <==> TooFewOperands(cmd))
      && (r.Usage? ==> r.command == cmd[0])
      && (r.UnknownCommand? <==> c == Unknown)
      && (r.UnknownCommand? ==> r.word == cmd[0])
      && (!MayChangeVolume(c) || TooFewOperands(cmd) ==> unchanged(fs) && unchanged(fs.dev))
      && (c == List ==>
            var path := if |cmd| > 1 then cmd[1] else ROOT;
            r == if path == ROOT || path == [] then Listing(fs.entries) else Error(Unsupported))
      && (c == Cat && |cmd| >= 2 ==>
            var content := ContentAt(fs.entries, fs.dev.bytes, cmd[1]);
            r == if content.Success? then Shown(content.value) else Error(content.error))
      && ((c == Touch || c == MakeDir) && |cmd| >= 2 ==>
            && (r == Ok <==> Lookup(old(fs.entries), cmd[1]).None?)
            && (r != Ok ==> r == Error(AlreadyExists))
            && (r == Ok ==>
                  var e := FileEntry(StoredName(cmd[1]), 0, BumpStart(old(fs.entries), DataStart(fs.entrySize)), c == MakeDir);
                  fs.entries == old(fs.entries) + [e]))
      && (c == Remove && |cmd| >= 2 ==>
            && (r == Ok <==> Lookup(old(fs.entries), cmd[1]).Some?)
            && (r != Ok ==> r == Error(NotFound)))
      && (c == Edit && |cmd| >= 2 ==>
            var found := Lookup(old(fs.entries), cmd[1]);
            && (r == Ok <==> found.Some? && !old(fs.entries)[found.value].isDirectory)
            && (r != Ok ==> r == Error(if found.None? then NotFound else IsDirectory)))
  {
    if cmdline == [] {
      return Idle;
    }
    var cmd := SplitCmd(cmdline);
    var word := cmd[0];
    match CommandOf(word)
    case Exit =>
      r := Quit;
    case Help =>
      r := HelpText;
    case List =>
      var path := ROOT;
      if |cmd| > 1 {
        path := cmd[1];
      }
      var files := fs.ListDir(path);
      r := if files.Success? then Listing(files.value) else Error(files.error);
    case Touch =>
      if |cmd| < 2 {
        return Usage(word);
      }
      var created := fs.CreateFile(cmd[1], false);
      r := if created.Done? then Ok else Error(created.error);
    case Cat =>
      if |cmd| < 2 {
        return Usage(word);
      }
      var content := fs.GetContent(cmd[1]);
      r := if content.Success? then Shown(content.value) else Error(content.error);
    case Edit =>
      if |cmd| < 2 {
        return Usage(word);
      }
      var edited := fs.SetContent(cmd[1], nextLine);
      r := if edited.Done? then Ok else Error(edited.error);
    case Remove =>
      if |cmd| < 2 {
        return Usage(word);
      }
      var removed := fs.RemoveFile(cmd[1]);
      r := if removed.Done? then Ok else Error(removed.error);
    case MakeDir =>
      if |cmd| < 2 {
        return Usage(word);
      }
      var created := fs.CreateFile(cmd[1], true);
      r := if created.Done? then Ok else Error(created.error);
    case RemoveDir =>
      if |cmd| < 2 {
        return Usage(word);
      }
      r := Rmdir(fs, cmd[1]);
    case Move =>
      if |cmd| < 3 {
        return Usage(word);
      }
      r := Mv(fs, cmd[1], cmd[2]);
    case Unknown =>
      r := UnknownCommand(word);
  }
}
