/**
 * The record store: the database directories on disk, each a flat set of
 * files named after the records they hold. A directory path that is a key of
 * `dirs` exists as a directory; its map takes a record name to the file's
 * content. What the operating system decides (whether a directory can be
 * created, whether a file can be written) comes in as a parameter.
 */
module Store {
  import opened Wrappers
  import opened Text
  import Codec

  /** How saving a record can go wrong: `File::create` fails (nothing is
      written), or it succeeds and `fs::write` fails (the file is left empty). */
  datatype SaveFault = NoFault | CreateFails | WriteFails

  /** The error `save_cmd` returns, whatever went wrong. */
  const SaveError := "Failed to save cmd"

  /** One line of `list`: the 1-based index, `) ` and the record name. */
  function ListLine(index: nat, name: string): string {
    Decimal(index) + ") " + name
  }

  /** What `list` prints for the names in the order given. */
  function ListLines(names: seq<string>): (r: seq<string>)
    ensures |r| == |names|
  {
    seq(|names|, i requires 0 <= i < |names| => ListLine(i + 1, names[i]))
  }

  /** A listing line gives back both its index and its name. */
  lemma ListLineInjective(i: nat, j: nat, a: string, b: string)
    requires ListLine(i, a) == ListLine(j, b)
    ensures i == j && a == b
  {
    var di, dj := Decimal(i), Decimal(j);
    var line := ListLine(i, a);
    LeadingDigitsOfLine(di, a);
    LeadingDigitsOfLine(dj, b);
    assert di == line[..|di|] == dj;
    DecimalInjective(i, j);
    assert a == line[|di| + 2..] == b;
  }

  /** The number of digits a string starts with. */
  function LeadingDigits(s: string): nat {
    if s != [] && '0' <= s[0] <= '9' then 1 + LeadingDigits(s[1..]) else 0
  }

  /** The index of a listing line is where its leading digits end. */
  lemma {:induction false} LeadingDigitsOfLine(d: string, name: string)
    requires AllDigits(d)
    ensures LeadingDigits(d + ") " + name) == |d|
  {
    if d != [] {
      assert (d + ") " + name)[1..] == d[1..] + ") " + name;
      LeadingDigitsOfLine(d[1..], name);
    }
  }

  /** `names` lists every key of `records` exactly once. */
  predicate Enumerates(names: seq<string>, records: map<string, string>) {
    && |names| == |records|
    && (forall i, j | 0 <= i < j < |names| :: names[i] != names[j])
    && (forall n <- names :: n in records)
    && (forall n <- records.Keys :: n in names)
  }

  class FileSystem {
    var dirs: map<string, map<string, string>>

    constructor (initial: map<string, map<string, string>>)
      ensures dirs == initial
    {
      dirs := initial;
    }

    /** `create_db_dir`: nothing to do when the directory exists; otherwise it is
        created empty, or the operating system's error is returned and nothing changes. */
    method CreateDbDir(dir: string, mkdirError: Option<string>) returns (r: Result<()>)
      modifies this
      ensures dir in old(dirs) ==> r == Ok(()) && dirs == old(dirs)
      ensures dir !in old(dirs) && mkdirError.None? ==> r == Ok(()) && dirs == old(dirs)[dir := map[]]
      ensures dir !in old(dirs) && mkdirError.Some? ==> r == Err(mkdirError.value) && dirs == old(dirs)
      ensures r.Ok? <==> dir in dirs
    {
      if dir in dirs {
        return Ok(());
      }
      if mkdirError.Some? {
        return Err(mkdirError.value);
      }
      dirs := dirs[dir := map[]];
      r := Ok(());
    }

    /** `save_cmd`: creates or overwrites the record `name` with the encoded command;
        every other record, and every other directory, is left as it was. */
    method SaveCmd(dir: string, name: string, cmd: string, cmdArgs: seq<string>, fault: SaveFault)
      returns (r: Result<()>)
      modifies this
      ensures dir !in old(dirs) || fault.CreateFails? ==> r == Err(SaveError) && dirs == old(dirs)
      ensures dir in old(dirs) && fault.WriteFails? ==>
        r == Err(SaveError) && dirs == old(dirs)[dir := old(dirs)[dir][name := ""]]
      ensures dir in old(dirs) && fault.NoFault? ==>
        r == Ok(()) && dirs == old(dirs)[dir := old(dirs)[dir][name := Codec.Encode(cmd, cmdArgs)]]
    {
      var content := cmd;
      content := content + " ";
      content := content + Join(cmdArgs);
      if dir !in dirs || fault.CreateFails? {
        return Err(SaveError);
      }
      if fault.WriteFails? {
        dirs := dirs[dir := dirs[dir][name := ""]];
        return Err(SaveError);
      }
      dirs := dirs[dir := dirs[dir][name := content]];
      r := Ok(());
    }

    /** `get_cmd`: the content of the record, or nothing when the directory or the
        record is missing (the caller reports it as not found and exits with status 1). */
    method GetCmd(dir: string, name: string) returns (r: Option<string>)
      ensures r.Some? <==> dir in dirs && name in dirs[dir]
      ensures r.Some? ==> r.value == dirs[dir][name]
    {
      if dir in dirs && name in dirs[dir] {
        r := Some(dirs[dir][name]);
      } else {
        r := None;
      }
    }

    /** `delete_cmd`: removes the record when it exists and reports whether it did;
        every other record is left as it was. */
    method DeleteCmd(dir: string, name: string) returns (removed: bool)
      modifies this
      ensures removed <==> dir in old(dirs) && name in old(dirs)[dir]
      ensures removed ==> dirs == old(dirs)[dir := old(dirs)[dir] - {name}]
      ensures !removed ==> dirs == old(dirs)
    {
      removed := dir in dirs && name in dirs[dir];
      if removed {
        dirs := dirs[dir := dirs[dir] - {name}];
      }
    }

    /** `list`: one line per record, numbered from 1, in an order the operating
        system chooses; nothing when the directory is missing or the operating
        system fails to enumerate it (`enumFails`), where an `unwrap` panics. */
    method List(dir: string, enumFails: bool) returns (names: seq<string>, lines: Option<seq<string>>)
      ensures lines.Some? <==> dir in dirs && !enumFails
      ensures lines.None? ==> names == []
      ensures lines.Some? ==> Enumerates(names, dirs[dir]) && lines.value == ListLines(names)
    {
      names := [];
      if dir !in dirs || enumFails {
        return names, None;
      }
      var records := dirs[dir];
      var remaining := records.Keys;
      var out: seq<string> := [];
      while remaining != {}
        invariant remaining <= records.Keys
        invariant |names| + |remaining| == |records.Keys|
        invariant forall n :: n in names <==> n in records.Keys - remaining
        invariant forall i, j | 0 <= i < j < |names| :: names[i] != names[j]
        invariant out == ListLines(names)
        decreases remaining
      {
        var name :| name in remaining;
        assert name !in names;
        out := out + [ListLine(|names| + 1, name)];
        names := names + [name];
        remaining := remaining - {name};
      }
      lines := Some(out);
    }
  }

  /** Listing lines are pairwise distinct: one per record, each with its own index. */
  lemma ListLinesDistinct(names: seq<string>)
    ensures forall i, j | 0 <= i < j < |names| :: ListLines(names)[i] != ListLines(names)[j]
  {
    var lines := ListLines(names);
    forall i, j | 0 <= i < j < |names| ensures lines[i] != lines[j] {
      if lines[i] == lines[j] {
        ListLineInjective(i + 1, j + 1, names[i], names[j]);
      }
    }
  }
}
