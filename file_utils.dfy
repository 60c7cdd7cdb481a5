/** Path helpers of code/anker/common/anker_file_utils.cpp: extension
    stripping and the separator rewrite of `toIdentifier`. */
module FileUtils {
  import opened Wrappers

  /** `find_last_of(c)`: the position of the last `c`, or `None` for
      `npos`. */
  function LastIndexOf(s: string, c: char): (r: Option<nat>)
    ensures r.None? <==> forall i | 0 <= i < |s| :: s[i] != c
    ensures r.Some? ==> r.value < |s| && s[r.value] == c
                        && forall i | r.value < i < |s| :: s[i] != c
  {
    if |s| == 0 then None
    else if s[|s| - 1] == c then Some(|s| - 1)
    else LastIndexOf(s[..|s| - 1], c)
  }

  /** `stripFileExtensions` on a `std::string` or a `std::string_view`: both
      overloads take `substr(0, find_last_of('.'))`, and `substr` with `npos`
      keeps the whole string. */
  function StripFileExtensions(path: string): string {
    match LastIndexOf(path, '.')
    case Some(k) => path[..k]
    case None => path
  }

  /** A path without '.' is returned unchanged; otherwise the result is the
      text before the last '.', and what is cut off is one '.' followed by
      '.'-free text. */
  lemma StripRemovesLastSuffix(path: string)
    ensures (forall i | 0 <= i < |path| :: path[i] != '.') ==> StripFileExtensions(path) == path
    ensures (exists i | 0 <= i < |path| :: path[i] == '.') ==>
              var r := StripFileExtensions(path);
              && |r| < |path|
              && path == r + ['.'] + path[|r| + 1..]
              && forall i | |r| < i < |path| :: path[i] != '.'
  {
    match LastIndexOf(path, '.')
    case Some(k) =>
      assert path == path[..k] + ['.'] + path[k + 1..];
    case None =>
  }

  /** Only the final suffix goes, and a '.' in a directory name counts as
      well. */
  lemma StripExamples()
    ensures StripFileExtensions("a.tar.gz") == "a.tar"
    ensures StripFileExtensions("maps.v2/level") == "maps"
    ensures StripFileExtensions("textures/player") == "textures/player"
  {
    assert LastIndexOf("a.tar.gz", '.') == Some(5) by {
      assert "a.tar.gz"[..7] == "a.tar.g";
      assert "a.tar.g"[..6] == "a.tar.";
    }
    assert "a.tar.gz"[..5] == "a.tar";
    assert LastIndexOf("maps.v2/level", '.') == Some(4) by {
      assert "maps.v2/level"[4] == '.';
      assert forall i | 4 < i < 13 :: "maps.v2/level"[i] != '.';
    }
    assert "maps.v2/level"[..4] == "maps";
    assert forall i | 0 <= i < 15 :: "textures/player"[i] != '.';
  }

  /** Where the file name of a '/'-separated path starts: just after the
      last '/', or at 0. */
  function NameStart(path: string): (start: nat)
    ensures start <= |path|
    ensures start == 0 || path[start - 1] == '/'
    ensures forall i | start <= i < |path| :: path[i] != '/'
  {
    match LastIndexOf(path, '/') case Some(k) => k + 1 case None => 0
  }

  /** The `fs::path` overload, `replace_extension()`, for paths that use
      '/': only the file name (after the last '/') can lose an extension, and
      a leading '.' of the file name does not start one. Nothing is removed
      when the file name is "." or "..", or has no '.' after its first
      character; otherwise exactly the name's last '.' and what follows it
      go. */
  function StripPathExtension(path: string): (r: string)
    ensures |r| <= |path| && r == path[..|r|]
    ensures var name := path[NameStart(path)..];
            (name == "." || name == ".." || forall i | 0 < i < |name| :: name[i] != '.') ==> r == path
    ensures var name := path[NameStart(path)..];
            !(name == "." || name == ".." || forall i | 0 < i < |name| :: name[i] != '.') ==>
              && NameStart(path) < |r| < |path|
              && path[|r|] == '.'
              && forall i | |r| < i < |path| :: path[i] != '.'
  {
    var start := NameStart(path);
    var name := path[start..];
    if name == "." || name == ".." then path
    else
      match LastIndexOf(name, '.')
      case Some(k) => if k == 0 then path else path[..start + k]
      case None => path
  }

  /** The two kinds of overload differ when a directory name holds a '.'. */
  lemma PathOverloadDiffers()
    ensures StripPathExtension("maps.v2/level") == "maps.v2/level"
    ensures StripFileExtensions("maps.v2/level") == "maps"
  {
    StripExamples();
    assert LastIndexOf("maps.v2/level", '/') == Some(7) by {
      assert "maps.v2/level"[7] == '/';
      assert forall i | 7 < i < 13 :: "maps.v2/level"[i] != '/';
    }
    assert "maps.v2/level"[8..] == "level";
    assert forall i | 0 <= i < 5 :: "level"[i] != '.';
  }

  /** The separator rewrite in `toIdentifier`: every '\\' becomes '/'. */
  function WithForwardSlashes(s: string): string {
    seq(|s|, i requires 0 <= i < |s| => if s[i] == '\\' then '/' else s[i])
  }

  /** After the rewrite no '\\' is left, every other character is where it
      was, and rewriting again changes nothing. */
  lemma ForwardSlashesProperties(s: string)
    ensures |WithForwardSlashes(s)| == |s|
    ensures forall i | 0 <= i < |s| :: WithForwardSlashes(s)[i] != '\\'
    ensures forall i | 0 <= i < |s| && s[i] != '\\' :: WithForwardSlashes(s)[i] == s[i]
    ensures WithForwardSlashes(WithForwardSlashes(s)) == WithForwardSlashes(s)
  {
  }

  /** `std::ranges::replace(result, '\\', '/')` on the identifier string. */
  method ReplaceBackslashes(s: array<char>)
    modifies s
    ensures s[..] == WithForwardSlashes(old(s[..]))
  {
    var i := 0;
    while i < s.Length
      invariant 0 <= i <= s.Length
      invariant forall j | 0 <= j < i :: s[j] == (if old(s[j]) == '\\' then '/' else old(s[j]))
      invariant forall j | i <= j < s.Length :: s[j] == old(s[j])
    {
      if s[i] == '\\' {
        s[i] := '/';
      }
      i := i + 1;
    }
  }
}
