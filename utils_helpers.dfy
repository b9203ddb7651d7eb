/**
 * The upload-path builder of utils/helpers.py. The model name and the
 * formatted timestamp are passed in; reading the clock and formatting it
 * are not part of the model.
 */
module Helpers {

  /**
   * Splitting on a separator character the way a string's `split(sep)` does:
   * the pieces between separators, empty ones included, always at least one.
   */
  function Split(s: string, sep: char): (parts: seq<string>)
    ensures |parts| >= 1
    ensures forall i :: 0 <= i < |parts| ==> sep !in parts[i]
    ensures |parts| == 1 <==> sep !in s
    ensures sep !in s ==> parts == [s]
  {
    if s == [] then [""]
    else
      var rest := Split(s[1..], sep);
      if s[0] == sep then [""] + rest
      else
        assert [s[0]] + s[1..] == s;
        [[s[0]] + rest[0]] + rest[1..]
  }

  /** Gluing pieces back together with the separator between neighbours. */
  function Join(parts: seq<string>, sep: char): (joined: string)
    requires |parts| >= 1
    ensures |joined| >= |parts[0]| && joined[..|parts[0]|] == parts[0]
  {
    if |parts| == 1 then parts[0] else parts[0] + [sep] + Join(parts[1..], sep)
  }

  /** Splitting loses nothing: joining the pieces gives the string back. */
  lemma {:induction false} JoinSplit(s: string, sep: char)
    ensures Join(Split(s, sep), sep) == s
  {
    if s != [] {
      JoinSplit(s[1..], sep);
      var rest := Split(s[1..], sep);
      if s[0] == sep {
        assert Split(s, sep) == [""] + rest;
        assert Split(s, sep)[1..] == rest;
      } else {
        var parts := Split(s, sep);
        assert parts == [[s[0]] + rest[0]] + rest[1..];
        if |rest| == 1 {
          assert parts == [[s[0]] + rest[0]];
        } else {
          assert parts[1..] == rest[1..];
          assert Join(parts, sep) == [s[0]] + rest[0] + [sep] + Join(rest[1..], sep);
        }
      }
    }
  }

  /** Joining two or more pieces ends in the separator followed by the last piece. */
  lemma {:induction false} JoinLast(parts: seq<string>, sep: char)
    requires |parts| >= 2
    ensures Join(parts, sep) == Join(parts[..|parts| - 1], sep) + [sep] + parts[|parts| - 1]
  {
    if |parts| > 2 {
      JoinLast(parts[1..], sep);
      assert parts[1..][..|parts| - 2] == parts[..|parts| - 1][1..];
    }
  }

  /** `filename.split('.')[-1]`: the last dot-separated piece of the file name. */
  function Extension(filename: string): (ext: string)
    ensures '.' !in ext
    ensures '.' !in filename ==> ext == filename
  {
    var parts := Split(filename, '.');
    parts[|parts| - 1]
  }

  /**
   * The extension is the text after the last '.': it holds no '.', it ends the
   * file name, and it is either the whole name (when there is no '.') or
   * preceded by a '.'.
   */
  lemma ExtensionAfterLastDot(filename: string)
    ensures '.' !in Extension(filename)
    ensures |Extension(filename)| <= |filename|
    ensures filename[|filename| - |Extension(filename)|..] == Extension(filename)
    ensures |Extension(filename)| < |filename| ==> filename[|filename| - |Extension(filename)| - 1] == '.'
    ensures '.' !in filename <==> Extension(filename) == filename
  {
    var parts := Split(filename, '.');
    var ext := parts[|parts| - 1];
    JoinSplit(filename, '.');
    if |parts| >= 2 {
      JoinLast(parts, '.');
      var head := Join(parts[..|parts| - 1], '.');
      assert filename == head + ['.'] + ext;
      assert filename[|filename| - |ext|..] == ext;
      assert filename[|filename| - |ext| - 1] == '.';
    }
  }

  /** A file name ending in '.' has an empty extension. */
  lemma TrailingDotEmptyExtension(filename: string)
    requires |filename| > 0 && filename[|filename| - 1] == '.'
    ensures Extension(filename) == ""
  {
    ExtensionAfterLastDot(filename);
  }

  /** get_file_upload_path: `<model name>/<timestamp>.<extension>`. */
  function FileUploadPath(modelName: string, timestamp: string, filename: string): (path: string)
    ensures |path| >= |modelName| + |timestamp| + 2
    ensures path[..|modelName| + 1] == modelName + "/"
    ensures path[|modelName| + |timestamp| + 1] == '.'
    ensures '.' !in path[|modelName| + |timestamp| + 2..]
  {
    modelName + "/" + timestamp + "." + Extension(filename)
  }

  /**
   * The path is the model name, '/', the timestamp, '.', and then a dot-free
   * tail of the original file name that follows its last '.' (or is the
   * whole name when it has none); a name ending in '.' gives a path ending in '.'.
   */
  lemma UploadPathShape(modelName: string, timestamp: string, filename: string)
    ensures var path := FileUploadPath(modelName, timestamp, filename);
      var head := modelName + "/" + timestamp + ".";
      var tail := path[|head|..];
      && |head| <= |path| && path[..|head|] == head
      && '.' !in tail
      && |tail| <= |filename| && filename[|filename| - |tail|..] == tail
      && ('.' !in filename ==> tail == filename)
      && ('.' in filename ==> filename[|filename| - |tail| - 1] == '.')
      && (|filename| > 0 && filename[|filename| - 1] == '.' ==> path[|path| - 1] == '.')
  {
    ExtensionAfterLastDot(filename);
    var head := modelName + "/" + timestamp + ".";
    var path := FileUploadPath(modelName, timestamp, filename);
    assert path == head + Extension(filename);
    assert path[|head|..] == Extension(filename);
    if |filename| > 0 && filename[|filename| - 1] == '.' {
      TrailingDotEmptyExtension(filename);
    }
  }

  /** Only the extension of the original name survives: same extension and timestamp, same path. */
  lemma SameExtensionSamePath(modelName: string, timestamp: string, name1: string, name2: string)
    requires Extension(name1) == Extension(name2)
    ensures FileUploadPath(modelName, timestamp, name1) == FileUploadPath(modelName, timestamp, name2)
  {
  }
}
