/** The upload's fileFilter: a file is accepted when both the lower-cased
    extension of its original name and its MIME type contain one of jpeg,
    jpg, png or gif. The extension is taken as Node's path.extname takes it
    on POSIX paths. */
module Upload {
  import opened Basics

  /** The last index of `c` in `s`, or -1. */
  function LastIndex(s: string, c: char): (r: int)
    ensures -1 <= r < |s|
    ensures r >= 0 ==> s[r] == c
    ensures forall j :: r < j < |s| ==> s[j] != c
  {
    if s == [] then -1
    else if s[|s| - 1] == c then |s| - 1
    else LastIndex(s[..|s| - 1], c)
  }

  /** The path without its trailing slashes. */
  function TrimSlashes(s: string): (r: string)
    ensures |r| <= |s| && r == s[..|r|]
    ensures r == [] || r[|r| - 1] != '/'
    ensures forall j :: |r| <= j < |s| ==> s[j] == '/'
  {
    if s != [] && s[|s| - 1] == '/' then TrimSlashes(s[..|s| - 1]) else s
  }

  /** The last segment of the path. */
  function BaseName(path: string): (b: string)
    ensures forall j :: 0 <= j < |b| ==> b[j] != '/'
  {
    var t := TrimSlashes(path);
    t[LastIndex(t, '/') + 1..]
  }

  /** The last segment is the longest slash-free end of the path once its
      trailing slashes are gone. */
  lemma BaseNameIsLastSegment(path: string)
    ensures var t := TrimSlashes(path);
            var b := BaseName(path);
            |b| <= |t| && b == t[|t| - |b|..] && (|b| < |t| ==> t[|t| - |b| - 1] == '/')
  {
  }

  /** path.extname: from the last dot of the last segment to its end; empty
      when the segment has no dot, starts with its only leading dots' last
      dot (a dot file such as ".png"), or is "..". */
  function ExtName(path: string): (r: string)
    ensures r != [] ==> r[0] == '.'
    ensures forall j :: 1 <= j < |r| ==> r[j] != '.' && r[j] != '/'
    ensures r != [] ==> |r| < |BaseName(path)| && r == BaseName(path)[|BaseName(path)| - |r|..]
  {
    var b := BaseName(path);
    var k := LastIndex(b, '.');
    if k <= 0 || b == ".." then "" else b[k..]
  }

  /** There is an extension exactly when the last segment is not ".." and
      has a dot after its first character. */
  lemma ExtNamePresent(path: string)
    ensures var b := BaseName(path);
            ExtName(path) != [] <==> b != ".." && exists i :: 0 < i < |b| && b[i] == '.'
  {
    var b := BaseName(path);
    var k := LastIndex(b, '.');
    if b != ".." && exists i :: 0 < i < |b| && b[i] == '.' {
      var i :| 0 < i < |b| && b[i] == '.';
      assert k >= i;
    }
  }

  /** The regular expression /jpeg|jpg|png|gif/, unanchored. */
  predicate ImageType(s: string): (r: bool)
    ensures r <==> exists i :: OccursAt(s, "jpeg", i) || OccursAt(s, "jpg", i)
                            || OccursAt(s, "png", i) || OccursAt(s, "gif", i)
  {
    HasInfix(s, "jpeg") || HasInfix(s, "jpg") || HasInfix(s, "png") || HasInfix(s, "gif")
  }

  /** fileFilter: accept when the extension and the MIME type both match. */
  predicate Accepted(originalName: string, mimetype: string): (r: bool)
    // A name without an extension is refused; the MIME type must match too.
    ensures r ==> ExtName(originalName) != "" && ImageType(mimetype)
  {
    ImageType(Lower(ExtName(originalName))) && ImageType(mimetype)
  }

  // ---------------------------------------------------------------------
  // Lower-casing commutes with taking the extension

  /** A character that is not a letter: lower-casing neither makes nor
      unmakes it. */
  predicate NotLetter(c: char) {
    !('A' <= c <= 'Z') && !('a' <= c <= 'z')
  }

  lemma {:induction false} LastIndexOfLower(s: string, c: char)
    requires NotLetter(c)
    ensures LastIndex(Lower(s), c) == LastIndex(s, c)
  {
    if s != [] {
      assert Lower(s)[|s| - 1] == c <==> s[|s| - 1] == c;
      assert Lower(s)[..|s| - 1] == Lower(s[..|s| - 1]);
      LastIndexOfLower(s[..|s| - 1], c);
    }
  }

  lemma {:induction false} TrimSlashesOfLower(s: string)
    ensures TrimSlashes(Lower(s)) == Lower(TrimSlashes(s))
  {
    if s != [] {
      assert Lower(s)[|s| - 1] == '/' <==> s[|s| - 1] == '/';
      if s[|s| - 1] == '/' {
        assert Lower(s)[..|s| - 1] == Lower(s[..|s| - 1]);
        TrimSlashesOfLower(s[..|s| - 1]);
      }
    }
  }

  lemma LowerOfSuffix(s: string, k: nat)
    requires k <= |s|
    ensures Lower(s)[k..] == Lower(s[k..])
  {
  }

  lemma BaseNameOfLower(path: string)
    ensures BaseName(Lower(path)) == Lower(BaseName(path))
  {
    var t := TrimSlashes(path);
    TrimSlashesOfLower(path);
    LastIndexOfLower(t, '/');
    LowerOfSuffix(t, LastIndex(t, '/') + 1);
  }

  lemma LowerIsDotDot(b: string)
    ensures Lower(b) == ".." <==> b == ".."
  {
    if Lower(b) == ".." {
      assert LowerChar(b[0]) == '.' && LowerChar(b[1]) == '.';
      assert b == [b[0], b[1]];
    }
    if b == ".." {
      assert Lower(b) == [LowerChar('.'), LowerChar('.')];
    }
  }

  /** Taking the extension of the lower-cased name gives the lower-cased
      extension. */
  lemma ExtNameOfLower(path: string)
    ensures ExtName(Lower(path)) == Lower(ExtName(path))
  {
    var b := BaseName(path);
    BaseNameOfLower(path);
    LastIndexOfLower(b, '.');
    LowerIsDotDot(b);
    var k := LastIndex(b, '.');
    if k > 0 && b != ".." {
      LowerOfSuffix(b, k);
    } else {
      assert Lower("") == "";
    }
  }

  /** The extension is compared without regard to case, so the name's case
      never decides. */
  lemma AcceptanceIgnoresNameCase(originalName: string, mimetype: string)
    ensures Accepted(Lower(originalName), mimetype) == Accepted(originalName, mimetype)
  {
    ExtNameOfLower(originalName);
    LowerIdempotent(ExtName(originalName));
  }

  // ---------------------------------------------------------------------
  // Consequences

  /** Characters after the last `c` do not move it. */
  lemma {:induction false} LastIndexAppend(a: string, b: string, c: char)
    requires forall j :: 0 <= j < |b| ==> b[j] != c
    ensures LastIndex(a + b, c) == LastIndex(a, c)
  {
    if b != [] {
      var n := |b| - 1;
      assert (a + b)[|a + b| - 1] == b[n];
      assert (a + b)[..|a + b| - 1] == a + b[..n];
      LastIndexAppend(a, b[..n], c);
    } else {
      assert a + b == a;
    }
  }

  /** Without an extension a file is refused, whatever its MIME type. */
  lemma NoExtensionRefused(originalName: string, mimetype: string)
    requires ExtName(originalName) == ""
    ensures !Accepted(originalName, mimetype)
  {
    assert Lower("") == "";
    assert !HasInfix("", "jpeg") && !HasInfix("", "jpg") && !HasInfix("", "png") && !HasInfix("", "gif");
  }

  /** A dot file such as "photos/.png" has no extension, so it is refused. */
  lemma DotFileHasNoExtension(dir: string, stem: string)
    requires forall j :: 0 <= j < |stem| ==> stem[j] != '.' && stem[j] != '/'
    ensures ExtName(dir + "/." + stem) == ""
  {
    var tail := "." + stem;
    var path := dir + "/" + tail;
    assert dir + "/." + stem == path;
    assert path[|path| - 1] == tail[|tail| - 1];
    assert TrimSlashes(path) == path;
    assert forall j :: 0 <= j < |tail| ==> tail[j] != '/' by {
      forall j | 0 <= j < |tail| ensures tail[j] != '/' {
        if j > 0 { assert tail[j] == stem[j - 1]; }
      }
    }
    LastIndexAppend(dir + "/", tail, '/');
    assert LastIndex(dir + "/", '/') == |dir|;
    assert BaseName(path) == tail;
    LastIndexAppend(".", stem, '.');
    assert "." + stem == tail;
  }

  /** A path without a slash is its own last segment. */
  lemma NoSlashBaseName(path: string)
    requires forall j :: 0 <= j < |path| ==> path[j] != '/'
    ensures BaseName(path) == path
  {
    if path != [] {
      assert path[|path| - 1] != '/';
    }
    assert TrimSlashes(path) == path;
    LastIndexAppend([], path, '/');
    assert [] + path == path;
  }

  /** "stem.ext" has the extension ".ext" when the stem is not empty and
      neither part holds a slash and the extension holds no dot. */
  lemma SimpleExtName(stem: string, ext: string)
    requires stem != [] && ext != []
    requires forall j :: 0 <= j < |stem| ==> stem[j] != '/'
    requires forall j :: 0 <= j < |ext| ==> ext[j] != '/' && ext[j] != '.'
    ensures ExtName(stem + "." + ext) == "." + ext
  {
    var front := stem + ".";
    var path := front + ext;
    assert stem + "." + ext == path;
    assert forall j :: 0 <= j < |path| ==> path[j] != '/' by {
      forall j | 0 <= j < |path| ensures path[j] != '/' {
        if j < |stem| { assert path[j] == stem[j]; }
        else if j > |stem| { assert path[j] == ext[j - |stem| - 1]; }
      }
    }
    NoSlashBaseName(path);
    LastIndexAppend(front, ext, '.');
    assert LastIndex(front, '.') == |stem|;
    assert path[|stem|..] == "." + ext;
    assert |path| > 2;
  }

  /** A string holding one of the four format names matches. */
  lemma ImageTypeAt(s: string, t: string, i: int)
    requires t == "jpeg" || t == "jpg" || t == "png" || t == "gif"
    requires OccursAt(s, t, i)
    ensures ImageType(s)
  {
  }

  /** A match survives putting text in front. */
  lemma PrefixKeepsInfix(p: string, s: string, t: string)
    requires HasInfix(s, t)
    ensures HasInfix(p + s, t)
  {
    var i :| OccursAt(s, t, i);
    assert (p + s)[i + |p|..i + |p| + |t|] == s[i..i + |t|];
    assert OccursAt(p + s, t, i + |p|);
  }

  lemma PrefixKeepsImageType(p: string, s: string)
    requires ImageType(s)
    ensures ImageType(p + s)
  {
    if HasInfix(s, "jpeg") {
      PrefixKeepsInfix(p, s, "jpeg");
    } else if HasInfix(s, "jpg") {
      PrefixKeepsInfix(p, s, "jpg");
    } else if HasInfix(s, "png") {
      PrefixKeepsInfix(p, s, "png");
    } else {
      PrefixKeepsInfix(p, s, "gif");
    }
  }

  /** A file "stem.ext" whose lower-case extension names an image format,
      sent with the MIME type "image/ext", is accepted. */
  lemma ImageFileAccepted(stem: string, ext: string)
    requires stem != [] && ext != []
    requires forall j :: 0 <= j < |stem| ==> stem[j] != '/'
    requires forall j :: 0 <= j < |ext| ==> 'a' <= ext[j] <= 'z'
    requires ImageType(ext)
    ensures ExtName(stem + "." + ext) == "." + ext
    ensures Accepted(stem + "." + ext, "image/" + ext)
  {
    SimpleExtName(stem, ext);
    var dotted := "." + ext;
    assert forall j :: 0 < j < |dotted| ==> dotted[j] == ext[j - 1];
    LowerOfLowercase(dotted);
    PrefixKeepsImageType(".", ext);
    PrefixKeepsImageType("image/", ext);
  }

  /** The match is unanchored: a format name followed by anything, such as
      "pngx" or "gifs", still counts as an image type, so by
      ImageFileAccepted "clip.pngx" sent as "image/pngx" is accepted. */
  lemma UnanchoredMatch(t: string, rest: string)
    requires t == "jpeg" || t == "jpg" || t == "png" || t == "gif"
    ensures ImageType(t + rest)
  {
    assert (t + rest)[..|t|] == t;
    ImageTypeAt(t + rest, t, 0);
  }
}
