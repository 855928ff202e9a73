/** The extension test of the directory walk: Python 2.7's
    `os.path.splitext` on a POSIX path, and the case-insensitive membership
    test `tag_dir` applies to its extension. */
module Paths {
  import Text

  /** Index of the last `c` in `s`, or -1 when there is none (`str.rfind`). */
  function LastIndex(s: string, c: char): (r: int)
    ensures -1 <= r < |s|
    ensures r >= 0 ==> s[r] == c
    ensures forall k :: r < k < |s| ==> s[k] != c
    decreases |s|
  {
    if |s| == 0 then -1
    else if s[|s| - 1] == c then |s| - 1
    else LastIndex(s[..|s| - 1], c)
  }

  /** No `c` in `s` at index `from` or after. */
  predicate NoneFrom(s: string, from: int, c: char)
  {
    forall k :: 0 <= k < |s| && from <= k ==> s[k] != c
  }

  /** The leading-dot loop of `splitext`: scanning `s[i..end]`, is there a
      character that is not a dot? */
  function NonDotIn(s: string, i: int, end: int): (r: bool)
    requires 0 <= i && end <= |s|
    ensures r <==> exists j :: i <= j < end && s[j] != '.'
    decreases end - i
  {
    if i >= end then false
    else if s[i] != '.' then true
    else NonDotIn(s, i + 1, end)
  }

  /** The path has an extension: some dot has no dot after it, and before
      it, with no separator from there on, sits a character that is not a
      dot. A name made only of leading dots (".mp3", "..") has none. */
  predicate HasExt(p: string)
  {
    exists d, j :: 0 <= j < d < |p| && p[d] == '.' && p[j] != '.' && NoneFrom(p, j, '/') && NoneFrom(p, d + 1, '.')
  }

  /** `os.path.splitext`: splits off the extension, the part from the last
      dot of the last path component, unless everything before that dot in
      the component is dots. */
  function SplitExt(p: string): (r: (string, string))
    ensures r.0 + r.1 == p
    ensures r.1 != "" <==> HasExt(p)
    ensures r.1 != "" ==> r.1[0] == '.' && NoneFrom(r.1, 1, '.') && NoneFrom(r.1, 0, '/')
  {
    var sepIndex := LastIndex(p, '/');
    var dotIndex := LastIndex(p, '.');
    var r := if dotIndex > sepIndex && NonDotIn(p, sepIndex + 1, dotIndex) then (p[..dotIndex], p[dotIndex..]) else (p, "");
    assert r.0 + r.1 == p;
    HasExtAt(p, sepIndex, dotIndex);
    r
  }

  /** `HasExt` in terms of the last separator and the last dot. */
  lemma HasExtAt(p: string, sepIndex: int, dotIndex: int)
    requires sepIndex == LastIndex(p, '/') && dotIndex == LastIndex(p, '.')
    ensures HasExt(p) <==> dotIndex > sepIndex && exists j :: sepIndex + 1 <= j < dotIndex && p[j] != '.'
  {
  }

  /** The extension part of `splitext`. */
  function Ext(p: string): string
  {
    SplitExt(p).1
  }

  /** `ext.lower() in accepted_exts`. */
  predicate Accepted(name: string, exts: seq<string>)
  {
    Text.Lower(Ext(name)) in exts
  }

  /** Lower-casing keeps every character that is not a letter where it
      was, and puts none anywhere else. */
  lemma LowerKeeps(s: string, c: char)
    requires !('A' <= c <= 'Z') && !('a' <= c <= 'z')
    ensures |Text.Lower(s)| == |s|
    ensures forall k :: 0 <= k < |s| ==> (Text.Lower(s)[k] == c <==> s[k] == c)
  {
  }

  /** The last `c` sits at the same index after lower-casing. */
  lemma LastIndexLower(s: string, c: char)
    requires !('A' <= c <= 'Z') && !('a' <= c <= 'z')
    ensures LastIndex(Text.Lower(s), c) == LastIndex(s, c)
  {
    LowerKeeps(s, c);
  }

  /** Lower-casing a path lower-cases its extension: the split point does
      not depend on letter case. */
  lemma ExtLower(p: string)
    ensures Ext(Text.Lower(p)) == Text.Lower(Ext(p))
  {
    var l := Text.Lower(p);
    LastIndexLower(p, '/');
    LastIndexLower(p, '.');
    LowerKeeps(p, '.');
    var sepIndex := LastIndex(p, '/');
    var dotIndex := LastIndex(p, '.');
    if dotIndex > sepIndex {
      assert NonDotIn(l, sepIndex + 1, dotIndex) == NonDotIn(p, sepIndex + 1, dotIndex);
      Text.LowerSlice(p, dotIndex);
    }
  }

  /** The extension test ignores letter case: a name is accepted exactly
      when its lower-cased form is. */
  lemma AcceptedIgnoresCase(name: string, exts: seq<string>)
    ensures Accepted(Text.Lower(name), exts) <==> Accepted(name, exts)
  {
    ExtLower(name);
    Text.LowerIdempotent(Ext(name));
  }

  /** The extension is the suffix from the last dot whenever `HasExt` holds
      for that dot. */
  lemma ExtAt(p: string, d: int, j: int)
    requires 0 <= j < d < |p| && p[d] == '.' && p[j] != '.'
    requires NoneFrom(p, j, '/') && NoneFrom(p, d + 1, '.')
    ensures Ext(p) == p[d..]
  {
  }

  /** The extension keeps its case, and only the last dot counts. */
  lemma ExtLastDot()
    ensures Ext("a.MP3") == ".MP3"
    ensures Ext("a.b.mp3") == ".mp3"
  {
    ExtAt("a.MP3", 1, 0);
    ExtAt("a.b.mp3", 3, 0);
  }

  /** Leading dots do not start an extension, and a dot in a directory name
      is not one. */
  lemma ExtNone()
    ensures Ext(".mp3") == ""
    ensures Ext("..mp3") == ""
    ensures Ext("d.d/f") == ""
  {
    assert "d.d/f"[3] == '/';
  }

  /** With the script's extension list, an upper-case extension is
      accepted. */
  lemma AcceptedUpperCase()
    ensures Accepted("a.MP3", [".mp3"])
  {
    ExtAt("a.MP3", 1, 0);
    assert "a.MP3"[1..] == ".MP3";
    LowerMp3();
  }

  lemma LowerMp3()
    ensures Text.Lower(".MP3") == ".mp3"
  {
    var l := Text.Lower(".MP3");
    assert l[0] == '.' && l[1] == 'm' && l[2] == 'p' && l[3] == '3';
  }

  /** Another extension is not accepted. */
  lemma OtherExtNotAccepted()
    ensures !Accepted("a.jpg", [".mp3"])
  {
    ExtAt("a.jpg", 1, 0);
    assert Text.Lower(".jpg")[1] == 'j';
  }

  /** A dot-file named like the extension is not accepted. */
  lemma DotFileNotAccepted()
    ensures !Accepted(".mp3", [".mp3"])
  {
  }
}
