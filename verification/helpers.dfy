/** The module-level helpers of the plugin: line-ending normalisation and
    the title and base path taken from a buffer's file name. */
module Helpers {
  import opened Wrappers
  import opened Paths

  /** `handle_line_endings`: the text with every carriage return removed. */
  function HandleLineEndings(text: string): (r: string)
    ensures forall i :: 0 <= i < |r| ==> r[i] != '\r'
    ensures |r| <= |text|
  {
    if text == [] then []
    else if text[0] == '\r' then HandleLineEndings(text[1..])
    else [text[0]] + HandleLineEndings(text[1..])
  }

  /** Normalisation works piecewise: the two halves of a text are normalised
      separately and joined. With `HandleLineEndingsOnChar` this pins the
      function down as "drop each CR, keep every other character in order". */
  lemma {:induction false} HandleLineEndingsConcat(a: string, b: string)
    ensures HandleLineEndings(a + b) == HandleLineEndings(a) + HandleLineEndings(b)
  {
    if a != [] {
      assert (a + b)[0] == a[0];
      assert (a + b)[1..] == a[1..] + b;
      HandleLineEndingsConcat(a[1..], b);
    } else {
      assert a + b == b;
    }
  }

  /** A single character is dropped if it is a CR and kept otherwise. */
  lemma HandleLineEndingsOnChar(c: char)
    ensures HandleLineEndings([c]) == (if c == '\r' then [] else [c])
  {
    assert [c][1..] == [];
  }

  /** Text without a carriage return is left as it is. */
  lemma {:induction false} HandleLineEndingsKeepsCrFree(text: string)
    requires forall i :: 0 <= i < |text| ==> text[i] != '\r'
    ensures HandleLineEndings(text) == text
  {
    if text != [] {
      HandleLineEndingsKeepsCrFree(text[1..]);
      assert text == [text[0]] + text[1..];
    }
  }

  /** Normalising twice is normalising once. */
  lemma HandleLineEndingsIdempotent(text: string)
    ensures HandleLineEndings(HandleLineEndings(text)) == HandleLineEndings(text)
  {
    HandleLineEndingsKeepsCrFree(HandleLineEndings(text));
  }

  /** The buffer has a file name and that file exists on disk. */
  predicate SourceExists(fileName: Option<string>, fs: FileSystem) {
    fileName.Some? && Exists(fs, fileName.value)
  }

  /** `parse_file_name`: an unsaved buffer, or one whose file no longer
      exists, is titled "Untitled" with no base path; otherwise the title is
      the file's stem and the base path its directory. */
  function ParseFileName(fileName: Option<string>, fs: FileSystem): (r: (string, Option<string>))
    ensures r.1.None? <==> !SourceExists(fileName, fs)
    ensures r.1.None? ==> r.0 == "Untitled"
    ensures r.1.Some? ==> r == (fs.stem(fileName.value), Some(fs.dirname(fileName.value)))
  {
    if !SourceExists(fileName, fs) then ("Untitled", None)
    else (fs.stem(fileName.value), Some(fs.dirname(fileName.value)))
  }
}
