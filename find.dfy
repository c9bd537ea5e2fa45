/**
 * The helpers of the file-finder plugin: the icon chosen for a MIME type,
 * the permission and size formatting of the detail pane, the `gf` pipe
 * protocol (a `q:` request, a reply of one count line followed by one path
 * per line) and the parent directory opened by "Show in explorer".
 */
module Find {
  import opened Wrappers
  import opened Strings
  import opened Streams

  // ---------------------------------------------------------------------
  // Icons

  /** The names of the host's icon set that `MIME` can return. */
  datatype Icon = Document | Image | Folder | Film | Music | Code | Text

  /** The substrings `MIME` looks for, in the order it tests them, with the icon each selects. */
  const Keywords: seq<(string, Icon)> := [
    ("image", Image), ("directory", Folder), ("video", Film), ("audio", Music),
    ("application", Code), ("html", Code), ("text", Text)
  ]

  /**
   * `MIME(mime)`: the icon for a MIME type. The only caller passes
   * `file.mime ?? ''`, so an absent type arrives as the empty string.
   */
  function Mime(mime: string): (icon: Icon)
    ensures mime == "" ==> icon == Document
    ensures icon != Document ==>
      exists k :: 0 <= k < |Keywords| && Keywords[k].1 == icon && Includes(mime, Keywords[k].0)
  {
    var k := Keywords;
    if mime == "" then Document
    else if Includes(mime, "image") then assert k[0] == ("image", Image); Image
    else if Includes(mime, "directory") then assert k[1] == ("directory", Folder); Folder
    else if Includes(mime, "video") then assert k[2] == ("video", Film); Film
    else if Includes(mime, "audio") then assert k[3] == ("audio", Music); Music
    else if Includes(mime, "application") then assert k[4] == ("application", Code); Code
    else if Includes(mime, "html") then assert k[5] == ("html", Code); Code
    else if Includes(mime, "text") then assert k[6] == ("text", Text); Text
    else Document
  }

  /**
   * A priority-ordered classifier, the reference `Mime` is checked against:
   * the icon of the first rule from index `k` on whose keyword occurs in
   * `mime`, or `Document` when none does.
   */
  function FirstMatch(rules: seq<(string, Icon)>, mime: string, k: nat): Icon
    requires k <= |rules|
    decreases |rules| - k
  {
    if k == |rules| then Document
    else if Includes(mime, rules[k].0) then rules[k].1
    else FirstMatch(rules, mime, k + 1)
  }

  /** The first rule whose keyword occurs decides, whatever later rules say. */
  lemma {:induction false} FirstMatchIsFirst(rules: seq<(string, Icon)>, mime: string, k: nat, j: nat)
    requires k <= j < |rules| && Includes(mime, rules[j].0)
    requires forall i :: k <= i < j ==> !Includes(mime, rules[i].0)
    ensures FirstMatch(rules, mime, k) == rules[j].1
    decreases j - k
  {
    if k < j {
      FirstMatchIsFirst(rules, mime, k + 1, j);
    }
  }

  /** When no keyword occurs, the classifier falls back to `Document`. */
  lemma {:induction false} FirstMatchNone(rules: seq<(string, Icon)>, mime: string, k: nat)
    requires k <= |rules|
    requires forall i :: k <= i < |rules| ==> !Includes(mime, rules[i].0)
    ensures FirstMatch(rules, mime, k) == Document
    decreases |rules| - k
  {
    if k < |rules| {
      FirstMatchNone(rules, mime, k + 1);
    }
  }

  /** `MIME` is the first-match classifier over `Keywords`: the tests' order is their priority. */
  lemma MimeIsFirstMatch(mime: string)
    ensures Mime(mime) == FirstMatch(Keywords, mime, 0)
  {
    var r := Keywords;
    if mime == "" {
      forall i | 0 <= i < |r| ensures !Includes(mime, r[i].0) {
        assert |r[i].0| > 0;
      }
      FirstMatchNone(r, mime, 0);
      return;
    }
  }

  /**
   * The document icon is the fallback: `MIME` returns it exactly when the
   * type is absent or mentions none of the keywords.
   */
  lemma MimeDocument(mime: string)
    ensures Mime(mime) == Document <==>
      mime == "" || forall k :: 0 <= k < |Keywords| ==> !Includes(mime, Keywords[k].0)
  {
  }

  /** A directory gets the folder icon. */
  lemma MimeDirectory()
    ensures Mime("inode/directory") == Folder
  {
    MissingCharExcludes("inode/directory", "image", 'm');
    assert OccursAt("inode/directory", "directory", 6);
  }

  /** An HTML document gets the code icon, not the text icon, because `html` is tested before `text`. */
  lemma MimeHtml()
    ensures Mime("text/html") == Code
  {
    MissingCharExcludes("text/html", "image", 'i');
    MissingCharExcludes("text/html", "directory", 'd');
    MissingCharExcludes("text/html", "video", 'v');
    MissingCharExcludes("text/html", "audio", 'a');
    MissingCharExcludes("text/html", "application", 'a');
    assert OccursAt("text/html", "html", 5);
  }

  /** No MIME type that mentions `html` is shown with the text icon. */
  lemma HtmlNeverText(mime: string)
    requires Includes(mime, "html")
    ensures Mime(mime) != Text && Mime(mime) != Document
  {
  }

  // ---------------------------------------------------------------------
  // Permissions

  /**
   * ECMAScript's `ToUint32`, which JavaScript's bit operators apply to a
   * number before they act on its 32 bits (`ToInt32` keeps the same bits):
   * the one value in [0, 2^32) congruent to `n` modulo 2^32.
   */
  function ToUint32(n: int): (u: nat)
    ensures u < 0x1_0000_0000 && (n - u) % 0x1_0000_0000 == 0
  {
    var u := n % 0x1_0000_0000;
    assert n - u == (n / 0x1_0000_0000) * 0x1_0000_0000;
    u
  }

  /** The character of a column: its letter when the bit is set, `-` otherwise. */
  function Show(on: bool, letter: char): char
  {
    if on then letter else '-'
  }

  /** `fmtTriad(n)`: `r`, `w`, `x` for the bits of weight 4, 2 and 1, `-` for each bit that is clear. */
  function Triad(n: bv32): (t: string)
    ensures |t| == 3 && forall i :: 0 <= i < 3 ==> t[i] == "rwx"[i] || t[i] == '-'
  {
    [Show(n & 4 != 0, 'r')] + [Show(n & 2 != 0, 'w')] + [Show(n & 1 != 0, 'x')]
  }

  /**
   * The nine permission bits of a mode as `ls -l` lists them: column `i`
   * holds bit `8 - i`, from owner read (bit 8) to other execute (bit 0).
   */
  function ModeBits(m: bv32): (b: seq<bool>)
    ensures |b| == 9
  {
    [m & 0x100 != 0, m & 0x80 != 0, m & 0x40 != 0,
     m & 0x20 != 0, m & 0x10 != 0, m & 0x8 != 0,
     m & 0x4 != 0, m & 0x2 != 0, m & 0x1 != 0]
  }

  /** The letter column `i` of a permission string shows when its bit is set. */
  function PermLetter(i: nat): char
  {
    "rwx"[i % 3]
  }

  /** The permission string showing the nine bits `b`: column `i` is its letter exactly when `b[i]`. */
  function ShowBits(b: seq<bool>): (s: string)
    requires |b| == 9
    ensures |s| == 9
    ensures forall i :: 0 <= i < 9 ==> s[i] == Show(b[i], PermLetter(i))
  {
    [Show(b[0], 'r'), Show(b[1], 'w'), Show(b[2], 'x'),
     Show(b[3], 'r'), Show(b[4], 'w'), Show(b[5], 'x'),
     Show(b[6], 'r'), Show(b[7], 'w'), Show(b[8], 'x')]
  }

  lemma OwnerTriad(m: bv32)
    ensures Triad((m >> 6) & 7) == ShowBits(ModeBits(m))[..3]
  {
  }

  lemma GroupTriad(m: bv32)
    ensures Triad((m >> 3) & 7) == ShowBits(ModeBits(m))[3..6]
  {
  }

  lemma OtherTriad(m: bv32)
    ensures Triad(m & 7) == ShowBits(ModeBits(m))[6..]
  {
  }

  /**
   * The three triads of `fmtPerms` shifted out of the mode (`mode >> 6`,
   * `mode >> 3`, `mode`, each `& 7`) show the mode's nine permission bits.
   */
  lemma TriadsShowModeBits(m: bv32)
    ensures Triad((m >> 6) & 7) + Triad((m >> 3) & 7) + Triad(m & 7) == ShowBits(ModeBits(m))
  {
    OwnerTriad(m);
    GroupTriad(m);
    OtherTriad(m);
    var s := ShowBits(ModeBits(m));
    assert s == s[..3] + s[3..6] + s[6..];
  }

  /** The permission string of a 32-bit mode: the owner, group and other triads. */
  function PermsOf(m: bv32): (s: string)
    ensures |s| == 9
    ensures forall i :: 0 <= i < 9 ==> s[i] == Show(ModeBits(m)[i], PermLetter(i))
  {
    var owner := (m >> 6) & 7;
    var group := (m >> 3) & 7;
    var other := m & 7;
    TriadsShowModeBits(m);
    Triad(owner) + Triad(group) + Triad(other)
  }

  /**
   * `fmtPerms(mode)`: "Unknown" when the mode is null; otherwise nine
   * characters in which character `i` is the letter `r`, `w` or `x` of its
   * column exactly when bit `8 - i` of the mode is set, and `-` otherwise.
   */
  function Perms(mode: Option<int>): (s: string)
    ensures mode.None? ==> s == "Unknown"
    ensures mode.Some? ==> |s| == 9 && forall i :: 0 <= i < 9 ==>
      s[i] == Show(ModeBits(ToUint32(mode.value) as bv32)[i], PermLetter(i))
  {
    match mode
    case None => "Unknown"
    case Some(m) => PermsOf(ToUint32(m) as bv32)
  }

  /** Every character of a permission string is its column's letter or `-`. */
  lemma PermsAlphabet(mode: int)
    ensures forall i :: 0 <= i < 9 ==>
      Perms(Some(mode))[i] == PermLetter(i) || Perms(Some(mode))[i] == '-'
  {
  }

  /** Two 32-bit modes that agree on their low nine bits have the same permission bits. */
  lemma ModeBitsLow(x: bv32, y: bv32)
    requires x & 0x1FF == y & 0x1FF
    ensures ModeBits(x) == ModeBits(y)
  {
    assert ModeBits(x) == ModeBits(x & 0x1FF);
    assert ModeBits(y) == ModeBits(y & 0x1FF);
  }

  lemma PermsOfLowBits(x: bv32, y: bv32)
    requires x & 0x1FF == y & 0x1FF
    ensures PermsOf(x) == PermsOf(y)
  {
    ModeBitsLow(x, y);
    var s, t := PermsOf(x), PermsOf(y);
    assert forall i :: 0 <= i < 9 ==> s[i] == t[i];
  }

  /** Only the low nine bits of the mode matter. */
  lemma PermsLowBits(a: int, b: int)
    requires (ToUint32(a) as bv32) & 0x1FF == (ToUint32(b) as bv32) & 0x1FF
    ensures Perms(Some(a)) == Perms(Some(b))
  {
    var x, y := ToUint32(a) as bv32, ToUint32(b) as bv32;
    assert Perms(Some(a)) == PermsOf(x);
    assert Perms(Some(b)) == PermsOf(y);
    PermsOfLowBits(x, y);
  }

  /** The example of the `ls` convention: mode 0o755 reads `rwxr-xr-x`. */
  lemma Perms755()
    ensures Perms(Some(0x1ED)) == "rwxr-xr-x"
  {
    var bits := [true, true, true, true, false, true, true, false, true];
    assert ToUint32(0x1ED) as bv32 == 0x1ED;
    assert ModeBits(0x1ED) == bits;
    TriadsShowModeBits(0x1ED);
    assert ShowBits(bits) == "rwxr-xr-x";
  }

  /** A string of the shape `Perms` produces: each column's letter or `-`. */
  predicate PermsShaped(s: string)
  {
    |s| == 9 && forall i :: 0 <= i < 9 ==> s[i] == PermLetter(i) || s[i] == '-'
  }

  /** The nine-bit mode whose column `i` (bit `8 - i`) is set exactly when `b[i]`. */
  function BitsValue(b: seq<bool>): bv32
    requires |b| == 9
  {
    (if b[0] then 0x100 else 0) | (if b[1] then 0x80 else 0)
    | (if b[2] then 0x40 else 0) | (if b[3] then 0x20 else 0)
    | (if b[4] then 0x10 else 0) | (if b[5] then 0x8 else 0)
    | (if b[6] then 0x4 else 0) | (if b[7] then 0x2 else 0)
    | (if b[8] then 0x1 else 0)
  }

  /** Collecting a mode's nine bits keeps exactly its low nine bits. */
  lemma ModeBitsValue(m: bv32)
    ensures BitsValue(ModeBits(m)) == m & 0x1FF
  {
  }

  /** The columns of the mode built from nine bits are those bits. */
  lemma ValueModeBits(b: seq<bool>)
    requires |b| == 9
    ensures ModeBits(BitsValue(b)) == b
  {
  }

  /** The mode bits a permission string shows: the reverse of `PermsOf`. */
  function PermsValue(s: string): bv32
    requires |s| == 9
  {
    BitsValue(seq(9, i requires 0 <= i < 9 => s[i] != '-'))
  }

  /** Reading a formatted mode back gives its low nine bits. */
  lemma PermsValuePerms(m: bv32)
    ensures PermsValue(PermsOf(m)) == m & 0x1FF
  {
    var s := PermsOf(m);
    assert seq(9, i requires 0 <= i < 9 => s[i] != '-') == ModeBits(m);
    ModeBitsValue(m);
  }

  /** Formatting the mode a permission string shows gives that string back. */
  lemma PermsOfPermsValue(s: string)
    requires PermsShaped(s)
    ensures PermsOf(PermsValue(s)) == s
  {
    var b := seq(9, i requires 0 <= i < 9 => s[i] != '-');
    ValueModeBits(b);
  }

  // ---------------------------------------------------------------------
  // Sizes

  /** The units `fmtSize` can choose, each 1024 times the one before. */
  const Units: seq<string> := ["B", "KB", "MB", "GB", "TB"]

  /** The number of bytes in one of unit `k`: 1024 to the power `k`. */
  function Scale(k: nat): (r: real)
    ensures r >= 1.0
  {
    if k == 0 then 1.0 else 1024.0 * Scale(k - 1)
  }

  lemma {:induction false} ScaleGrows(j: nat, k: nat)
    requires j <= k
    ensures Scale(j) <= Scale(k)
    decreases k - j
  {
    if j < k {
      ScaleGrows(j, k - 1);
    }
  }

  /** Moving to the next unit divides the size by 1024 and keeps the byte count. */
  lemma DivideStep(size: real, k: nat)
    ensures (size / 1024.0) * Scale(k + 1) == size * Scale(k)
  {
    var s := Scale(k);
    assert Scale(k + 1) == 1024.0 * s;
    assert (size / 1024.0) * (1024.0 * s) == size * s;
  }

  /** A size of at least one in a unit is at least a whole unit of bytes. */
  lemma WholeUnit(size: real, s: real)
    requires size >= 1.0 && s >= 0.0
    ensures size * s >= s
  {
    assert size * s - s == (size - 1.0) * s;
    assert (size - 1.0) * s >= 0.0;
  }

  /** A size below 1024 in a unit is below one of the next unit up. */
  lemma BelowNextUnit(size: real, unitIndex: nat)
    requires size < 1024.0
    ensures size * Scale(unitIndex) < Scale(unitIndex + 1)
  {
    var s := Scale(unitIndex);
    assert Scale(unitIndex + 1) == 1024.0 * s;
    assert 1024.0 * s - size * s == (1024.0 - size) * s;
    assert (1024.0 - size) * s > 0.0;
  }

  /** Where the loop stops, the unit is the largest one of which there is a whole. */
  lemma UnitIsLargestWhole(bytes: real, size: real, unitIndex: nat)
    requires unitIndex < |Units| && size * Scale(unitIndex) == bytes
    requires unitIndex == 0 || size >= 1.0
    requires unitIndex == |Units| - 1 || size < 1024.0
    ensures unitIndex == 0 || bytes >= Scale(unitIndex)
    ensures forall k :: unitIndex < k < |Units| ==> bytes < Scale(k)
  {
    if unitIndex > 0 {
      WholeUnit(size, Scale(unitIndex));
    }
    if unitIndex < |Units| - 1 {
      BelowNextUnit(size, unitIndex);
      assert bytes < Scale(unitIndex + 1);
      forall k | unitIndex < k < |Units| ensures bytes < Scale(k) {
        ScaleGrows(unitIndex + 1, k);
      }
    }
  }

  /**
   * The unit-selection loop of `fmtSize(bytes)`: divide by 1024 while the
   * size is at least 1024 and a larger unit remains. The unit is the largest
   * one, up to TB, of which there is at least one whole; the size is the
   * byte count in that unit, below 1024 unless the unit is TB. Division by
   * 1024 is exact in binary floating point, so reals model it faithfully.
   */
  method SizeUnit(bytes: real) returns (size: real, unitIndex: nat, unit: string)
    ensures unitIndex < |Units| && unit == Units[unitIndex]
    ensures size * Scale(unitIndex) == bytes
    ensures unitIndex == 0 || bytes >= Scale(unitIndex)
    ensures forall k :: unitIndex < k < |Units| ==> bytes < Scale(k)
    ensures unitIndex == |Units| - 1 || size < 1024.0
  {
    size := bytes;
    unitIndex := 0;
    while size >= 1024.0 && unitIndex < |Units| - 1
      invariant unitIndex < |Units|
      invariant size * Scale(unitIndex) == bytes
      invariant unitIndex == 0 || size >= 1.0
    {
      DivideStep(size, unitIndex);
      size := size / 1024.0;
      unitIndex := unitIndex + 1;
    }
    unit := Units[unitIndex];
    UnitIsLargestWhole(bytes, size, unitIndex);
  }

  // ---------------------------------------------------------------------
  // The gf protocol

  /**
   * What the plugin writes to `gf` to search: `q:<query>` and a newline. A
   * query without a newline reaches `gf` as exactly the one line `q:<query>`.
   */
  function SearchCommand(query: string): (command: string)
    ensures '\n' !in query ==> Split(command, '\n') == ["q:" + query, ""]
  {
    var lines := ["q:" + query, ""];
    var command := "q:" + query + "\n";
    if '\n' !in query then
      assert forall i :: 0 <= i < 2 ==> '\n' !in lines[i];
      assert Join(lines, '\n') == command by {
        assert Join(lines, '\n') == lines[0] + ['\n'] + Join(lines[1..], '\n');
      }
      SplitUnique(lines, '\n');
      command
    else command
  }

  /** What the plugin writes to `gf` to stop it: a command with no newline after it. */
  function ExitCommand(): (command: string)
    ensures '\n' !in command && Split(command, '\n') == [command]
  {
    var command := "c:Exit";
    SplitUnique([command], '\n');
    command
  }

  /**
   * `path.split('/').pop() || path`: the name shown for a result. It holds
   * no `/` unless it is the whole path: a path that is empty or ends in `/`
   * is its own name. Otherwise the name is the non-empty text after the
   * last `/`.
   */
  function Basename(path: string): (name: string)
    ensures '/' !in name || name == path
    ensures path == "" || Last(path) == '/' ==> name == path
    ensures path != "" && Last(path) != '/' ==>
      name == path[LastIndexOf(path, '/') + 1..] && name != ""
  {
    SplitLast(path, '/');
    var parts := Split(path, '/');
    var last := Last(parts);
    assert last == parts[|parts| - 1];
    if last == "" then path else last
  }

  /** One entry of the result list: the `{ id, path, name, mime, data: null }` record of `search`. */
  datatype FileResult = FileResult(id: nat, path: string, name: string, mime: string)

  /**
   * `lines.map((path, id) => ...)`: one record per path, numbered from
   * `first`. `mimeOf` stands for `getMimeTypeSync`, which runs the `file`
   * command and is not part of this model.
   */
  function Records(paths: seq<string>, first: nat, mimeOf: string -> string): (rs: seq<FileResult>)
    ensures |rs| == |paths|
    ensures forall i :: 0 <= i < |rs| ==>
      rs[i] == FileResult(first + i, paths[i], Basename(paths[i]), mimeOf(paths[i]))
    decreases |paths|
  {
    if paths == [] then []
    else [FileResult(first, paths[0], Basename(paths[0]), mimeOf(paths[0]))] + Records(paths[1..], first + 1, mimeOf)
  }

  /**
   * The results `search` builds from one reply chunk of `gf`: the blank lines
   * are dropped, the first remaining line (the match count) is discarded and
   * every other line becomes a result, in order, numbered from 0.
   */
  function ParseReply(text: string, mimeOf: string -> string): (results: seq<FileResult>)
    ensures var lines := NonBlankLines(text);
      |results| == (if lines == [] then 0 else |lines| - 1)
      && forall i :: 0 <= i < |results| ==>
        results[i].id == i && results[i].path == lines[i + 1]
        && results[i].name == Basename(lines[i + 1]) && results[i].mime == mimeOf(lines[i + 1])
  {
    var lines := NonBlankLines(text);
    if lines == [] then [] else Records(lines[1..], 0, mimeOf)
  }

  /** The reply `gf` writes: the count line, then one line per path, each ended by a newline. */
  function Reply(count: string, paths: seq<string>): string
  {
    Join([count] + paths, '\n') + "\n"
  }

  /**
   * Parsing a well-formed reply recovers its paths, in order, with ids
   * 0, 1, ...: a count and paths that are neither blank nor hold a newline
   * survive the framing.
   */
  lemma ParseReplyRoundTrip(count: string, paths: seq<string>, mimeOf: string -> string)
    requires !IsBlank(count) && '\n' !in count
    requires forall i :: 0 <= i < |paths| ==> !IsBlank(paths[i]) && '\n' !in paths[i]
    ensures |ParseReply(Reply(count, paths), mimeOf)| == |paths|
    ensures forall i :: 0 <= i < |paths| ==>
      ParseReply(Reply(count, paths), mimeOf)[i].path == paths[i]
      && ParseReply(Reply(count, paths), mimeOf)[i].id == i
  {
    var lines := [count] + paths;
    var pieces := lines + [""];
    assert Join(pieces, '\n') == Reply(count, paths) by {
      JoinLast(pieces, '\n');
      assert pieces[..|pieces| - 1] == lines;
    }
    assert forall i :: 0 <= i < |pieces| ==> '\n' !in pieces[i];
    SplitUnique(pieces, '\n');
    NonBlankAppend(lines, [""]);
    assert NonBlank([""]) == [] by { assert Trim("") == ""; }
    assert forall i :: 0 <= i < |lines| ==> !IsBlank(lines[i]);
    NonBlankKeepsAll(lines);
    assert NonBlankLines(Reply(count, paths)) == lines;
    assert lines[1..] == paths;
  }

  // ---------------------------------------------------------------------
  // Show in explorer

  /**
   * The path the "reveal" action opens. A directory, or a result whose MIME
   * type is missing (the empty string), is opened itself; any other file's
   * path is cut after its last separator (`path.slice(0, idx + 1)`), which
   * leaves "" when the path has no separator. The separator is `\` on
   * Windows and `/` elsewhere, passed in as `sep`.
   */
  function RevealPath(path: string, mime: string, sep: char): (dir: string)
    ensures mime == "" || mime == "inode/directory" ==> dir == path
    ensures mime != "" && mime != "inode/directory" ==>
      dir <= path && (dir == "" || Last(dir) == sep) && sep !in path[|dir|..]
  {
    if mime != "" && mime != "inode/directory" then
      var idx := LastIndexOf(path, sep);
      NothingAfterLast(path, sep);
      path[..idx + 1]
    else path
  }

  /** Revealing an already revealed path changes nothing: the parent is its own parent. */
  lemma RevealIdempotent(path: string, mime: string, sep: char)
    ensures RevealPath(RevealPath(path, mime, sep), mime, sep) == RevealPath(path, mime, sep)
  {
    var dir := RevealPath(path, mime, sep);
    if mime != "" && mime != "inode/directory" && dir != "" {
      assert LastIndexOf(dir, sep) == |dir| - 1;
    }
  }

  /**
   * For a file path with `/` separators that does not end in `/`, the
   * revealed directory followed by the displayed name is the path itself.
   */
  lemma RevealThenName(path: string, mime: string)
    requires path != "" && Last(path) != '/'
    requires mime != "" && mime != "inode/directory"
    ensures RevealPath(path, mime, '/') + Basename(path) == path
  {
  }

  // ---------------------------------------------------------------------
  // The gf process

  /** The searches the plugin can fail with: a read of `gf`'s output rejected. */
  datatype SearchError = ReadFailed

  /**
   * The `search` and `exit` closures that `Finder` returns, over the pipes of
   * the `gf` process it spawned: `sent` is everything written to its input,
   * one entry per write, and `replies` what its output has yet to yield.
   */
  class Finder {
    var sent: seq<string>
    var replies: seq<ReadResult>

    /** A finder whose `gf` will answer with `replies`; nothing sent yet. */
    constructor (replies: seq<ReadResult>)
      ensures sent == [] && this.replies == replies
    {
      sent := [];
      this.replies := replies;
    }

    /**
     * `search(query)`: write the query line, read one chunk and parse it. At
     * the end of the stream `decode(undefined)` is the empty text, which
     * parses to no results; a rejected read rejects the search and leaves the
     * errored stream as it is.
     */
    method Search(query: string, mimeOf: string -> string) returns (r: Result<seq<FileResult>, SearchError>)
      modifies this
      ensures sent == old(sent) + [SearchCommand(query)]
      ensures old(replies) == [] ==> r == Success([]) && replies == []
      ensures old(replies) != [] && old(replies)[0].ReadError? ==>
        r == Failure(ReadFailed) && replies == old(replies)
      ensures old(replies) != [] && old(replies)[0].Chunk? ==>
        r == Success(ParseReply(old(replies)[0].text, mimeOf)) && replies == old(replies)[1..]
    {
      sent := sent + [SearchCommand(query)];
      var text := "";
      if replies != [] {
        match replies[0]
        case ReadError =>
          return Failure(ReadFailed);
        case Chunk(t) =>
          text := t;
          replies := replies[1..];
      }
      assert NonBlank([""]) == [] by { assert Trim("") == ""; }
      r := Success(ParseReply(text, mimeOf));
    }

    /** `exit()`: write the exit command. */
    method Exit()
      modifies this
      ensures sent == old(sent) + [ExitCommand()] && replies == old(replies)
    {
      sent := sent + [ExitCommand()];
    }
  }
}
