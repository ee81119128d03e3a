/**
 * The path of the PDF produced by `convert_to_pdf` in main.py: the input's
 * base name with its last extension replaced by ".pdf", inside the output
 * directory. Paths follow POSIX rules ('/' separates components).
 */
module Filenames {
  import opened Wrappers

  /** Python's `s.rfind(c)`: the index of the last `c` in `s`, or -1. */
  function LastIndex(s: string, c: char): (i: int)
    ensures -1 <= i < |s|
    ensures i == -1 <==> c !in s
    ensures 0 <= i ==> s[i] == c && c !in s[i + 1..]
    decreases |s|
  {
    if |s| == 0 then -1
    else if s[|s| - 1] == c then |s| - 1
    else
      var i := LastIndex(s[..|s| - 1], c);
      LastIndexStep(s, c, i);
      i
  }

  /** What the last index in all but the last character says about the whole string, when that character is not `c`. */
  lemma LastIndexStep(s: string, c: char, i: int)
    requires |s| > 0 && s[|s| - 1] != c
    requires -1 <= i < |s| - 1
    requires i == -1 <==> c !in s[..|s| - 1]
    requires 0 <= i ==> s[i] == c && c !in s[..|s| - 1][i + 1..]
    ensures i == -1 <==> c !in s
    ensures 0 <= i ==> s[i] == c && c !in s[i + 1..]
  {
    var front := s[..|s| - 1];
    assert s == front + [s[|s| - 1]];
    if 0 <= i {
      assert s[i + 1..] == front[i + 1..] + [s[|s| - 1]];
    }
  }

  /** `os.path.basename`: what follows the last '/'. */
  function Basename(path: string): (name: string)
    ensures '/' !in name
    ensures |name| <= |path| && path[|path| - |name|..] == name
    ensures LastIndex(path, '/') + 1 + |name| == |path|
  {
    path[LastIndex(path, '/') + 1..]
  }

  /** `name.rsplit('.', 1)[0]`: everything before the last '.', or the whole name if it has none. */
  function Stem(name: string): (stem: string)
    ensures |stem| <= |name| && name[..|stem|] == stem
    ensures '.' in name ==> |stem| < |name| && name[|stem|] == '.' && '.' !in name[|stem| + 1..]
    ensures '.' !in name ==> stem == name
  {
    var i := LastIndex(name, '.');
    if i == -1 then name else name[..i]
  }

  /** The file name the converter is expected to write. */
  function PdfName(name: string): (pdf: string)
    ensures |pdf| >= 4 && pdf[|pdf| - 4..] == ".pdf"
  {
    Stem(name) + ".pdf"
  }

  /** `os.path.join(dir, name)` for two components. */
  function JoinPath(dir: string, name: string): (path: string)
    ensures |name| <= |path| && path[|path| - |name|..] == name
    ensures !(|name| > 0 && name[0] == '/') ==> |dir| <= |path| && path[..|dir|] == dir
  {
    if |name| > 0 && name[0] == '/' then name
    else if dir == [] || dir[|dir| - 1] == '/' then dir + name
    else dir + "/" + name
  }

  /**
   * What `convert_to_pdf` returns, given the converter's exit status
   * (`None` when the process could not be started and the exception is caught).
   */
  function ConvertedPath(inputPath: string, outputDir: string, exitCode: Option<int>): (path: Option<string>)
    ensures path.Some? <==> exitCode == Some(0)
  {
    if exitCode == Some(0) then Some(JoinPath(outputDir, PdfName(Basename(inputPath))))
    else None
  }

  /** The last occurrence of `c` in `a + [c] + b`, when `b` has none, is the one between them. */
  lemma LastIndexOfSeparator(a: string, c: char, b: string)
    requires c !in b
    ensures LastIndex(a + [c] + b, c) == |a|
  {
    var s := a + [c] + b;
    assert s[|a|] == c;
    assert s[|a| + 1..] == b;
  }

  /** Only the last extension is replaced: "a.b.docx" becomes "a.b.pdf". */
  lemma PdfNameReplacesLastExtension(stem: string, ext: string)
    requires '.' !in ext
    ensures PdfName(stem + "." + ext) == stem + ".pdf"
  {
    LastIndexOfSeparator(stem, '.', ext);
    assert (stem + "." + ext)[..|stem|] == stem;
  }

  /** A name without a dot just gets ".pdf" appended. */
  lemma PdfNameWithoutExtension(name: string)
    requires '.' !in name
    ensures PdfName(name) == name + ".pdf"
  {
  }

  lemma PdfNameExample()
    ensures PdfName("a.b.docx") == "a.b.pdf"
    ensures PdfName("report") == "report.pdf"
  {
    PdfNameReplacesLastExtension("a.b", "docx");
    assert "a.b" + "." + "docx" == "a.b.docx";
    PdfNameWithoutExtension("report");
  }

  /** Joining a directory and a plain file name gives a path whose base name is that file name. */
  lemma BasenameOfJoin(dir: string, name: string)
    requires '/' !in name
    ensures Basename(JoinPath(dir, name)) == name
  {
    if dir == [] {
      assert JoinPath(dir, name) == name;
    } else if dir[|dir| - 1] == '/' {
      var front := dir[..|dir| - 1];
      assert dir + name == front + ['/'] + name;
      LastIndexOfSeparator(front, '/', name);
      assert (dir + name)[|dir|..] == name;
    } else {
      assert dir + "/" + name == dir + ['/'] + name;
      LastIndexOfSeparator(dir, '/', name);
      assert (dir + "/" + name)[|dir| + 1..] == name;
    }
  }

  /**
   * On success the result lies in the output directory and is named after the
   * input's base name with its last extension replaced; on any other exit it is None.
   */
  lemma ConvertedPathNaming(inputPath: string, outputDir: string, exitCode: Option<int>)
    ensures ConvertedPath(inputPath, outputDir, exitCode).Some? <==> exitCode == Some(0)
    ensures exitCode == Some(0) ==>
      Basename(ConvertedPath(inputPath, outputDir, exitCode).value) == PdfName(Basename(inputPath))
    ensures exitCode == Some(0) ==>
      var path := ConvertedPath(inputPath, outputDir, exitCode).value;
      |outputDir| <= |path| && path[..|outputDir|] == outputDir
  {
    if exitCode == Some(0) {
      var name := PdfName(Basename(inputPath));
      var stem := Stem(Basename(inputPath));
      assert '/' !in stem;
      assert name == stem + ".pdf";
      BasenameOfJoin(outputDir, name);
    }
  }
}
