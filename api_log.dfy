// The per-group log files: where they are, how the last bytes of one are read
// back as whole lines, and how entries are appended. The file system is a map
// from paths to byte contents; JSON encoding and decoding are not modelled.
module ApiLog {
  import opened Wrappers
  import opened JsString

  type Byte = b: int | 0 <= b < 256

  const LF: Byte := 10
  const Space: Byte := 32

  /** `sgroup_log_file`: the first `/` of the id becomes `_`; sync logs get `-sync`. */
  function SgroupLogFile(log_dir: string, id: string, sync: bool): string
  {
    log_dir + "/" + ReplaceFirst(id, "/", "_") + (if sync then "-sync" else "") + ".jsonl"
  }

  /** An id without `/` is kept as it is. */
  lemma NoSlashKept(id: string)
    requires '/' !in id
    ensures ReplaceFirst(id, "/", "_") == id
  {
    ContainsChar(id, '/');
  }

  /** Ids without `/` have their own log file, of each kind. */
  lemma LogFileInjective(log_dir: string, a: string, b: string, sync: bool)
    requires '/' !in a && '/' !in b
    requires SgroupLogFile(log_dir, a, sync) == SgroupLogFile(log_dir, b, sync)
    ensures a == b
  {
    NoSlashKept(a);
    NoSlashKept(b);
    var pre := log_dir + "/";
    var post := (if sync then "-sync" else "") + ".jsonl";
    var fa := SgroupLogFile(log_dir, a, sync);
    assert fa == pre + a + post;
    assert SgroupLogFile(log_dir, b, sync) == pre + b + post;
    assert |a| == |b|;
    assert a == fa[|pre|..|pre| + |a|];
  }

  /** With at most one `/` in the id, the log file is a plain name in the log directory. */
  lemma LogFileStaysInDir(log_dir: string, id: string, sync: bool)
    requires forall i, j :: 0 <= i < j < |id| && id[i] == '/' ==> id[j] != '/'
    ensures exists name :: '/' !in name && SgroupLogFile(log_dir, id, sync) == log_dir + "/" + name
  {
    var replaced := ReplaceFirst(id, "/", "_");
    var suffix := (if sync then "-sync" else "") + ".jsonl";
    ContainsChar(id, '/');
    if '/' in id {
      var i := IndexOf(id, "/").value;
      OccursAtChar(id, '/', i);
      assert replaced == id[..i] + "_" + id[i + 1..];
      forall k | 0 <= k < |id[..i]|
        ensures id[..i][k] != '/'
      {
        OccursAtChar(id, '/', k);
      }
      forall k | i < k < |id|
        ensures id[k] != '/'
      {
      }
    }
    assert '/' !in suffix;
    assert SgroupLogFile(log_dir, id, sync) == log_dir + "/" + (replaced + suffix);
  }

  // ------------------------------------------------ reading the end of a log

  /** The index of the first line feed. */
  function FirstLf(s: seq<Byte>): (k: nat)
    requires LF in s
    ensures k < |s| && s[k] == LF && LF !in s[..k]
  {
    if s[0] == LF then 0
    else
      var k := 1 + FirstLf(s[1..]);
      assert s[..k] == [s[0]] + s[1..][..k - 1];
      k
  }

  /** The bytes with the first line, line feed included, turned into spaces. */
  function Blanked(s: seq<Byte>): seq<Byte>
    requires LF in s
  {
    var k := FirstLf(s);
    Spaces(k + 1) + s[k + 1..]
  }

  function Spaces(n: nat): (r: seq<Byte>)
    ensures |r| == n && forall i :: 0 <= i < n ==> r[i] == Space
  {
    if n == 0 then [] else Spaces(n - 1) + [Space]
  }

  /** Blanking keeps the length, leaves no line feed before the kept lines, and keeps every byte after the first line feed. */
  lemma BlankedMeaning(s: seq<Byte>)
    requires LF in s
    ensures var r := Blanked(s); var k := FirstLf(s);
            && |r| == |s|
            && (forall i :: 0 <= i <= k ==> r[i] == Space)
            && (forall i :: k < i < |s| ==> r[i] == s[i])
            && LF !in r[..k + 1]
  {
    var r := Blanked(s);
    var k := FirstLf(s);
    var blank := r[..k + 1];
    assert forall i :: 0 <= i < |blank| ==> blank[i] == Space;
  }

  /**
   * `blank_partial_line`: overwrites the bytes up to and including the first
   * line feed with spaces. The source loops on for ever without a line feed.
   */
  method BlankPartialLine(b: array<Byte>)
    requires LF in b[..]
    modifies b
    ensures b[..] == Blanked(old(b[..]))
  {
    ghost var s := b[..];
    ghost var k := FirstLf(s);
    var i := 0;
    while b[i] != LF
      invariant 0 <= i <= k
      invariant forall j :: 0 <= j < i ==> b[j] == Space
      invariant forall j :: i <= j < b.Length ==> b[j] == s[j]
      decreases k - i
    {
      assert s[..k][i] == s[i];
      b[i] := Space;
      i := i + 1;
    }
    assert i == k;
    b[i] := Space;
    assert b[..] == Spaces(k + 1) + s[k + 1..];
  }

  /** What `read_full_lines` returns: whether the whole file was read, and the bytes read. */
  datatype FullLines = FullLines(whole_file: bool, buffer: seq<Byte>)

  /** `read_full_lines` as written: `whole_file` holds only when more bytes are asked for than the file has. */
  function FullLinesAsWritten(file: seq<Byte>, bytes: nat): FullLines
    requires bytes <= |file| ==> LF in file[|file| - bytes..]
  {
    if bytes > |file| then FullLines(true, file)
    else FullLines(false, Blanked(file[|file| - bytes..]))
  }

  /** A log whose size is exactly the number of bytes asked for loses its first, complete, entry. */
  lemma AsWrittenLosesFirstEntry()
    ensures FullLinesAsWritten([97, 10], 2) == FullLines(false, [Space, Space])
    ensures FullLinesOf([97, 10], 2) == FullLines(true, [97, 10])
  {
    var file: seq<Byte> := [97, 10];
    assert file[|file| - 2..] == file;
    assert FirstLf(file) == 1 by { assert file[0] != LF; assert file[1..][0] == LF; }
    var blank := Spaces(2);
    assert blank == [Space, Space] by { assert |blank| == 2 && blank[0] == Space && blank[1] == Space; }
  }

  /** `read_full_lines` with the whole file read whenever it fits in the bytes asked for. */
  function FullLinesOf(file: seq<Byte>, bytes: nat): FullLines
    requires bytes < |file| ==> LF in file[|file| - bytes..]
  {
    if bytes >= |file| then FullLines(true, file)
    else FullLines(false, Blanked(file[|file| - bytes..]))
  }

  /**
   * Read back, a log keeps every entry that lies wholly in the last `bytes`
   * bytes: the whole file when it fits, else the window with its partial
   * first line blanked.
   */
  lemma FullLinesKeepEntries(file: seq<Byte>, bytes: nat)
    requires bytes < |file| ==> LF in file[|file| - bytes..]
    ensures var r := FullLinesOf(file, bytes);
            && (r.whole_file <==> bytes >= |file|)
            && |r.buffer| == (if bytes < |file| then bytes else |file|)
            && (r.whole_file ==> r.buffer == file)
            && (!r.whole_file ==>
                  var window := file[|file| - bytes..]; var k := FirstLf(window);
                  && (forall i :: 0 <= i <= k ==> r.buffer[i] == Space)
                  && r.buffer[k + 1..] == window[k + 1..])
  {
    if bytes < |file| {
      var window := file[|file| - bytes..];
      BlankedMeaning(window);
    }
  }

  /** The reading part of `read_full_lines`: the last `bytes` bytes of the file, in a fresh buffer, blanked when partial. */
  method ReadWindow(file: seq<Byte>, bytes: nat) returns (r: FullLines)
    requires bytes < |file| ==> LF in file[|file| - bytes..]
    ensures r == FullLinesOf(file, bytes)
  {
    var whole_file := bytes >= |file|;
    var n := if whole_file then |file| else bytes;
    var start := |file| - n;
    var buffer := new Byte[n](i requires 0 <= i < n => file[start + i]);
    ghost var window := file[start..];
    assert buffer[..] == window;
    if !whole_file {
      BlankPartialLine(buffer);
    } else {
      assert window == file;
    }
    return FullLines(whole_file, buffer[..]);
  }

  /** The log files, by path. */
  class LogFiles {
    var files: map<string, seq<Byte>>

    constructor(files: map<string, seq<Byte>>)
      ensures this.files == files
    {
      this.files := files;
    }

    /** `read_full_lines`: a missing file is `ENOENT`. */
    method ReadFullLines(path: string, bytes: nat) returns (r: Result<FullLines>)
      requires path in files && bytes < |files[path]| ==> LF in files[path][|files[path]| - bytes..]
      ensures path !in files ==> r == Err("ENOENT")
      ensures path in files ==> r == Ok(FullLinesOf(files[path], bytes))
    {
      if path !in files {
        return Err("ENOENT");
      }
      var read := ReadWindow(files[path], bytes);
      return Ok(read);
    }

    /** `read_jsonl`: a missing log reads as the whole of an empty log. */
    method ReadJsonl(path: string, bytes: nat) returns (r: FullLines)
      requires path in files && bytes < |files[path]| ==> LF in files[path][|files[path]| - bytes..]
      ensures path !in files ==> r == FullLines(true, [])
      ensures path in files ==> r == FullLinesOf(files[path], bytes)
    {
      var read := ReadFullLines(path, bytes);
      if read.Err? {
        return FullLines(true, []);
      }
      return read.value;
    }

    /** `get_sgroup_logs`: refused without a log directory. */
    method GetSgroupLogs(log_dir: Option<string>, id: string, bytes: nat) returns (r: Result<FullLines>)
      requires log_dir.Some? ==> var path := SgroupLogFile(log_dir.value, id, false);
                 path in files && bytes < |files[path]| ==> LF in files[path][|files[path]| - bytes..]
      ensures log_dir.None? ==> r == Err("you must configure conf.log_dir first")
      ensures log_dir.Some? ==> var path := SgroupLogFile(log_dir.value, id, false);
                r == Ok(if path in files then FullLinesOf(files[path], bytes) else FullLines(true, []))
    {
      if log_dir.None? {
        return Err("you must configure conf.log_dir first");
      }
      var logs := ReadJsonl(SgroupLogFile(log_dir.value, id, false), bytes);
      return Ok(logs);
    }

    /** `audit`: appends one line, creating the file when missing. */
    method Audit(file: string, msg: seq<Byte>)
      modifies this
      ensures files == old(files)[file := (if file in old(files) then old(files)[file] else []) + msg + [LF]]
    {
      var current := if file in files then files[file] else [];
      files := files[file := current + msg + [LF]];
    }

    /** `log_sgroup_action`: nothing without a log directory, else one line in the group's log. */
    method LogSgroupAction(log_dir: Option<string>, id: string, entry: seq<Byte>)
      modifies this
      ensures log_dir.None? ==> files == old(files)
      ensures log_dir.Some? ==> var path := SgroupLogFile(log_dir.value, id, false);
                files == old(files)[path := (if path in old(files) then old(files)[path] else []) + entry + [LF]]
    {
      if log_dir.Some? {
        Audit(SgroupLogFile(log_dir.value, id, false), entry);
      }
    }

    /** `log_sgroup_flattened_modifications`: nothing without a log directory, else one line in the group's sync log. */
    method LogSgroupFlattenedModifications(log_dir: Option<string>, id: string, entry: seq<Byte>)
      modifies this
      ensures log_dir.None? ==> files == old(files)
      ensures log_dir.Some? ==> var path := SgroupLogFile(log_dir.value, id, true);
                files == old(files)[path := (if path in old(files) then old(files)[path] else []) + entry + [LF]]
    {
      if log_dir.Some? {
        Audit(SgroupLogFile(log_dir.value, id, true), entry);
      }
    }
  }

  /** The action log and the sync log of a group are two files. */
  lemma ActionAndSyncLogsDiffer(log_dir: string, id: string)
    ensures SgroupLogFile(log_dir, id, false) != SgroupLogFile(log_dir, id, true)
  {
    var a := SgroupLogFile(log_dir, id, false);
    var b := SgroupLogFile(log_dir, id, true);
    assert |b| == |a| + 5;
  }
}
