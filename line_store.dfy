/**
 * The line-oriented file store behind the get-lines, add-line and
 * delete-line routes. The directory of text files is a map from file path
 * to content; a logical file name resolves to the path `name + ".txt"`.
 * Every operation answers with an HTTP-style status and a body.
 */
module LineStore {
  import opened LineText

  /** The fixed suffix every logical file name gets before it is looked up. */
  const Extension: string := ".txt"

  /** The path a logical file name resolves to under the store's root. */
  function FilePath(name: string): (path: string)
    ensures |path| == |name| + 4 && path[..|name|] == name && path[|name|..] == ".txt"
  {
    name + Extension
  }

  /**
   * Two names share a file exactly when they are the same name. This holds
   * for paths keyed by `name + ".txt"` as here; with path normalisation it
   * holds only for names without separators or "." and ".." segments.
   */
  lemma FilePathInjective(name1: string, name2: string)
    ensures FilePath(name1) == FilePath(name2) <==> name1 == name2
  {
    if FilePath(name1) == FilePath(name2) {
      assert |name1| == |name2|;
      assert name1 == FilePath(name1)[..|name1|];
      assert name2 == FilePath(name2)[..|name2|];
    }
  }

  /** The JSON body of a response. */
  datatype Body =
    | LinesBody(lines: seq<string>)
    | AddedBody(message: string, addedLine: string)
    | DeletedBody(message: string, updatedLines: seq<string>)
    | ErrorBody(error: string)

  datatype Response = Response(status: int, body: Body)

  const NotFound: Response := Response(404, ErrorBody("File not found"))
  const NoContent: Response := Response(400, ErrorBody("No content provided"))
  const InvalidLineNumber: Response := Response(400, ErrorBody("Invalid line number"))

  /** What an append finds at `path`: the content, or nothing if the file is absent. */
  function ContentOrEmpty(files: map<string, string>, path: string): string {
    if path in files then files[path] else ""
  }

  /**
   * The lines without the one at 1-based position `lineNumber`: one fewer,
   * those before it in place, those after it moved up by one.
   */
  function RemoveLine(lines: seq<string>, lineNumber: int): (rest: seq<string>)
    requires 1 <= lineNumber <= |lines|
    ensures |rest| == |lines| - 1
    ensures forall i :: 0 <= i < lineNumber - 1 ==> rest[i] == lines[i]
    ensures forall i :: lineNumber - 1 <= i < |rest| ==> rest[i] == lines[i + 1]
  {
    lines[..lineNumber - 1] + lines[lineNumber..]
  }

  /** Removing a line takes out exactly that line and keeps every other one. */
  lemma RemoveLineMultiset(lines: seq<string>, lineNumber: int)
    requires 1 <= lineNumber <= |lines|
    ensures multiset(RemoveLine(lines, lineNumber)) + multiset{lines[lineNumber - 1]} == multiset(lines)
  {
    var k := lineNumber - 1;
    assert lines == lines[..k] + [lines[k]] + lines[k + 1..];
  }

  class FileLineStore {
    /** The text files under the store's root, by path. */
    var files: map<string, string>

    constructor (initial: map<string, string>)
      ensures files == initial
    {
      files := initial;
    }

    /**
     * get-lines: 404 when the file is absent, never an empty success;
     * otherwise 200 with the file's lines. Changes nothing.
     */
    method GetLines(name: string) returns (r: Response)
      ensures r.status == 200 <==> FilePath(name) in files
      ensures FilePath(name) !in files ==> r == NotFound
      ensures FilePath(name) in files ==> r == Response(200, LinesBody(Lines(files[FilePath(name)])))
    {
      var path := FilePath(name);
      if path !in files {
        return NotFound;
      }
      var lines := ReadLines(files[path]);
      r := Response(200, LinesBody(lines));
    }

    /**
     * add-line: 400 and no write for empty content; otherwise "\n" and the
     * content are appended to the file, which is created if absent, and the
     * content is echoed back. No other file changes.
     */
    method AddLine(name: string, newLine: string) returns (r: Response)
      modifies this
      ensures newLine == [] ==> r == NoContent && files == old(files)
      ensures newLine != [] ==>
        && r == Response(200, AddedBody("Line added successfully", newLine))
        && files == old(files)[FilePath(name) := ContentOrEmpty(old(files), FilePath(name)) + "\n" + newLine]
      ensures newLine != [] && NoNewline(newLine) ==>
        var before := ContentOrEmpty(old(files), FilePath(name));
        Lines(files[FilePath(name)])
          == Lines(before) + (if before == [] || EndsWithNewline(before) then [""] else []) + [newLine]
    {
      if newLine == [] {
        return NoContent;
      }
      var path := FilePath(name);
      var before := ContentOrEmpty(files, path);
      files := files[path := before + "\n" + newLine];
      if NoNewline(newLine) {
        AppendOneLine(before, newLine);
      }
      r := Response(200, AddedBody("Line added successfully", newLine));
    }

    /**
     * delete-line: 404 and no write when the file is absent; 400 and no write
     * when `lineNumber` is outside [1, number of lines]; otherwise the line is
     * removed, the file is rewritten as the remaining lines joined by "\n"
     * (no newline after the last line) and those lines are returned. No other file changes.
     * Reading the file back gives the returned lines unless the last of them
     * is empty; then it gives them without that last empty line.
     */
    method DeleteLine(name: string, lineNumber: int) returns (r: Response)
      modifies this
      ensures FilePath(name) !in old(files) ==> r == NotFound && files == old(files)
      ensures FilePath(name) in old(files) ==>
        var lines := Lines(old(files)[FilePath(name)]);
        if 1 <= lineNumber <= |lines| then
          && r == Response(200, DeletedBody("Line deleted successfully", RemoveLine(lines, lineNumber)))
          && files == old(files)[FilePath(name) := Join(RemoveLine(lines, lineNumber))]
        else
          r == InvalidLineNumber && files == old(files)
      ensures r.body.DeletedBody? ==>
        var rest := r.body.updatedLines;
        && (Lines(files[FilePath(name)]) == rest <==> (rest == [] || Last(rest) != ""))
        && (rest != [] && Last(rest) == "" ==> Lines(files[FilePath(name)]) == rest[..|rest| - 1])
    {
      var path := FilePath(name);
      if path !in files {
        return NotFound;
      }
      var lines := ReadLines(files[path]);
      if lineNumber < 1 || lineNumber > |lines| {
        return InvalidLineNumber;
      }
      lines := RemoveLine(lines, lineNumber);
      files := files[path := Join(lines)];
      LinesOfJoin(lines);
      r := Response(200, DeletedBody("Line deleted successfully", lines));
    }
  }

  /**
   * Appending `a` and then `b` to a missing file, derived from the contracts
   * above alone: the first append leaves an empty first line, so the file
   * reads as ["", a, b], and reading it twice gives the same lines.
   */
  method AppendScenario(name: string, a: string, b: string) returns (lines: seq<string>)
    requires a != [] && b != [] && NoNewline(a) && NoNewline(b)
    ensures lines == ["", a, b]
  {
    var store := new FileLineStore(map[]);
    var r := store.GetLines(name);
    assert r == NotFound;
    r := store.AddLine(name, "");
    assert r == NoContent && store.files == map[];
    r := store.AddLine(name, a);
    var content := store.files[FilePath(name)];
    assert Lines(content) == ["", a];
    assert Last(content) == Last(a) != '\n';
    r := store.AddLine(name, b);
    assert r.body.addedLine == b;
    var first := store.GetLines(name);
    var second := store.GetLines(name);
    assert first == second;
    lines := first.body.lines;
  }

  /** Three non-empty lines joined by "\n" read back as those three lines. */
  lemma ThreeLines(x: string, y: string, z: string)
    requires x != [] && y != [] && z != [] && NoNewline(x) && NoNewline(y) && NoNewline(z)
    ensures Lines(x + "\n" + y + "\n" + z) == [x, y, z]
  {
    var lines := [x, y, z];
    assert lines[..2] == [x, y] && [x, y][..1] == [x];
    assert Join([x, y]) == x + "\n" + y;
    assert Join(lines) == x + "\n" + y + "\n" + z;
    assert AllNoNewline(lines);
    LinesOfJoin(lines);
  }

  /**
   * A file holding x, y and z, derived from the contracts above alone:
   * line numbers 0 and 4 are rejected and change nothing.
   */
  method DeleteOutOfRangeScenario(name: string, x: string, y: string, z: string)
    returns (low: Response, high: Response, after: map<string, string>)
    requires x != [] && y != [] && z != [] && NoNewline(x) && NoNewline(y) && NoNewline(z)
    ensures low == high == InvalidLineNumber
    ensures after == map[FilePath(name) := x + "\n" + y + "\n" + z]
  {
    var store := new FileLineStore(map[FilePath(name) := x + "\n" + y + "\n" + z]);
    ThreeLines(x, y, z);
    low := store.DeleteLine(name, 0);
    high := store.DeleteLine(name, 4);
    after := store.files;
  }

  /** Line 2 of the three lines x, y, z, and the text left once it is gone. */
  lemma DeleteMiddle(x: string, y: string, z: string)
    requires x != [] && y != [] && z != [] && NoNewline(x) && NoNewline(y) && NoNewline(z)
    ensures |Lines(x + "\n" + y + "\n" + z)| == 3
    ensures RemoveLine(Lines(x + "\n" + y + "\n" + z), 2) == [x, z]
    ensures Join([x, z]) == x + "\n" + z
  {
    ThreeLines(x, y, z);
    assert RemoveLine([x, y, z], 2) == [x, z];
    assert [x, z][..1] == [x];
  }

  /**
   * A file holding x, y and z, derived from the contracts above alone:
   * deleting line 2 leaves x and z, and the file then holds x + "\n" + z
   * with no final newline.
   */
  method DeleteScenario(name: string, x: string, y: string, z: string)
    returns (remaining: seq<string>, after: map<string, string>)
    requires x != [] && y != [] && z != [] && NoNewline(x) && NoNewline(y) && NoNewline(z)
    ensures remaining == [x, z]
    ensures after == map[FilePath(name) := x + "\n" + z]
  {
    var path := FilePath(name);
    var store := new FileLineStore(map[path := x + "\n" + y + "\n" + z]);
    DeleteMiddle(x, y, z);
    var r := store.DeleteLine(name, 2);
    remaining, after := r.body.updatedLines, store.files;
  }

  /** Deleting from a file that does not exist writes nothing. */
  method DeleteMissingScenario(name: string, other: string, content: string)
    returns (r: Response, after: map<string, string>)
    requires name != other
    ensures r == NotFound
    ensures after == map[FilePath(other) := content]
  {
    FilePathInjective(name, other);
    var store := new FileLineStore(map[FilePath(other) := content]);
    r := store.DeleteLine(name, 1);
    after := store.files;
  }
}
