/** Which keys one folder of the bucket owns (apps/api/core/storage_door.py). */
module StorageDoor {
  import opened StorageNames

  // ---- the parts of a key -----------------------------------------------------------

  predicate NoSlash(s: string) { forall i :: 0 <= i < |s| ==> s[i] != '/' }

  /** The text between the slashes, empty stretches and all. */
  function Parts(s: string): (ps: seq<string>)
    ensures ps != []
  {
    if s == [] then [""]
    else
      var rest := Parts(s[1..]);
      if s[0] == '/' then [""] + rest else [[s[0]] + rest[0]] + rest[1..]
  }

  /** Each segment followed by its slash. */
  function FolderOf(segments: seq<string>): string {
    if segments == [] then "" else segments[0] + "/" + FolderOf(segments[1..])
  }

  lemma {:induction false} PartsAfter(a: string, rest: string)
    requires NoSlash(a)
    ensures Parts(a + "/" + rest) == [a] + Parts(rest)
  {
    var s := a + "/" + rest;
    if a == [] {
      assert s == "/" + rest && s[1..] == rest;
    } else {
      assert s[1..] == a[1..] + "/" + rest && s[0] == a[0];
      PartsAfter(a[1..], rest);
      assert [a[0]] + a[1..] == a;
    }
  }

  lemma {:induction false} Regroup(a: string, b: string, c: string)
    ensures a + "/" + (b + c) == a + "/" + b + c
  {
  }

  lemma {:induction false} PartsUnder(segments: seq<string>, rest: string)
    requires forall i :: 0 <= i < |segments| ==> NoSlash(segments[i])
    ensures Parts(FolderOf(segments) + rest) == segments + Parts(rest)
  {
    if segments == [] {
      assert "" + rest == rest;
    } else {
      var tail := segments[1..];
      PartsUnder(tail, rest);
      PartsAfter(segments[0], FolderOf(tail) + rest);
      Regroup(segments[0], FolderOf(tail), rest);
      assert segments == [segments[0]] + tail;
    }
  }

  /** A text with more parts than one is its first part, a slash, and the rest. */
  lemma {:induction false} FirstPart(s: string) returns (rest: string)
    requires |Parts(s)| > 1
    ensures s == Parts(s)[0] + "/" + rest && Parts(rest) == Parts(s)[1..]
  {
    if s[0] == '/' {
      rest := s[1..];
      assert s == "" + "/" + rest;
    } else {
      rest := FirstPart(s[1..]);
      assert s == [s[0]] + s[1..];
      assert Parts(s)[0] == [s[0]] + Parts(s[1..])[0];
    }
  }

  lemma {:induction false} TailStarts(segments: seq<string>, ps: seq<string>)
    requires 0 < |segments| < |ps| && ps[..|segments|] == segments
    ensures var tail, rest := segments[1..], ps[1..];
            segments[0] == ps[0] && |tail| < |rest| && rest[..|tail|] == tail && rest[|tail|..] == ps[|segments|..]
  {
    assert segments[0] == ps[..|segments|][0];
  }

  /** A text whose parts begin with the segments lies under their folder. */
  lemma {:induction false} UnderIfParts(segments: seq<string>, path: string) returns (rest: string)
    requires |segments| < |Parts(path)| && Parts(path)[..|segments|] == segments
    ensures path == FolderOf(segments) + rest && Parts(rest) == Parts(path)[|segments|..]
  {
    if segments == [] {
      rest := path;
      assert "" + rest == rest;
    } else {
      TailStarts(segments, Parts(path));
      var after := FirstPart(path);
      rest := UnderIfParts(segments[1..], after);
      Regroup(segments[0], FolderOf(segments[1..]), rest);
    }
  }

  // ---- the door ---------------------------------------------------------------------

  const SEGMENT_CAP: nat := 64

  predicate SegmentChar(c: char) { Safe(c) || c == ' ' }

  /** What the pattern of a folder's name accepts. */
  predicate LikeSegment(s: string) {
    0 < |s| <= SEGMENT_CAP && IsAlnum(s[0]) && forall i :: 0 <= i < |s| ==> SegmentChar(s[i])
  }

  predicate IsSegment(s: string) { LikeSegment(s) && NoDouble(s, '.') }

  /** A bucket and the folder in it; `segments` are what it was opened with. */
  datatype Door = Door(bucket: string, segments: seq<string>)

  datatype Opened = Open(door: Door) | Refused

  function OpenDoor(bucket: string, segments: seq<string>): Opened {
    if !LikeSegment(bucket) || segments == [] || exists i :: 0 <= i < |segments| && !IsSegment(segments[i])
    then Refused
    else Open(Door(bucket, segments))
  }

  ghost predicate GoodDoor(d: Door) { OpenDoor(d.bucket, d.segments) == Open(d) }

  /** Characters no key carries after the folder. */
  predicate Never(c: char) {
    var n := c as int;
    || c == '\\' || c == '?' || c == '#'
    || 0x202a <= n <= 0x202e || 0x2066 <= n <= 0x2069
    || n < 0x20 || 0x7f <= n <= 0x9f
  }

  /** A percent-encoded dot, slash or backslash. */
  predicate Encoded(s: string, i: nat)
    requires i + 2 < |s|
  {
    && s[i] == '%'
    && (s[i + 1..i + 3] == "2f" || s[i + 1..i + 3] == "2F" || s[i + 1..i + 3] == "2e" || s[i + 1..i + 3] == "2E"
        || s[i + 1..i + 3] == "5c" || s[i + 1..i + 3] == "5C")
  }

  predicate Clean(rest: string) {
    && (forall i :: 0 <= i < |rest| ==> !Never(rest[i]))
    && (forall i :: 0 <= i < |rest| - 2 ==> !Encoded(rest, i))
  }

  /** A part that names something: not empty, not a dot or two. */
  predicate Names(part: string) { part != "" && part != "." && part != ".." }

  predicate AllName(parts: seq<string>) { forall i :: 0 <= i < |parts| ==> Names(parts[i]) }

  predicate Owns(d: Door, path: string) {
    var folder := FolderOf(d.segments);
    && folder < path
    && AllName(Parts(path[|folder|..])) && Clean(path[|folder|..])
  }

  lemma {:induction false} SegmentsArePlain(d: Door)
    requires GoodDoor(d)
    ensures d.segments != [] && forall i :: 0 <= i < |d.segments| ==> IsSegment(d.segments[i]) && NoSlash(d.segments[i])
  {
    forall i | 0 <= i < |d.segments| ensures IsSegment(d.segments[i]) && NoSlash(d.segments[i]) {
      assert IsSegment(d.segments[i]);
    }
  }

  /** What follows as many characters as the folder has. */
  function Below(d: Door, path: string): string {
    if |FolderOf(d.segments)| <= |path| then path[|FolderOf(d.segments)|..] else path
  }

  /** What the one rule comes to: a key is owned exactly when its first parts are
      the door's segments, every part after them names something, and what
      follows the folder is clean. So no owned key climbs out of its folder. */
  lemma {:induction false} OwnsByParts(d: Door, path: string)
    requires GoodDoor(d)
    ensures Owns(d, path) <==>
            && d.segments < Parts(path)
            && AllName(Parts(path)[|d.segments|..])
            && Clean(Below(d, path))
  {
    var folder, n := FolderOf(d.segments), |d.segments|;
    SegmentsArePlain(d);
    if folder <= path {
      var rest := path[|folder|..];
      assert path == folder + rest;
      PartsUnder(d.segments, rest);
      assert (d.segments + Parts(rest))[n..] == Parts(rest);
      if rest == "" {
        assert path == folder;
        assert Parts(rest) == [""] && !Names(Parts(rest)[0]);
      }
    } else if d.segments < Parts(path) {
      var rest := UnderIfParts(d.segments, path);
    }
  }

  /** Two doors with as many segments share a key only if they are one folder. */
  lemma {:induction false} DoorsAreApart(d: Door, e: Door, path: string)
    requires GoodDoor(d) && GoodDoor(e) && |d.segments| == |e.segments|
    requires Owns(d, path) && Owns(e, path)
    ensures d.segments == e.segments
  {
    OwnsByParts(d, path);
    OwnsByParts(e, path);
    assert d.segments == Parts(path)[..|d.segments|] == e.segments;
  }

  // ---- stored names fit -------------------------------------------------------------

  lemma {:induction false} OnePart(s: string)
    requires NoSlash(s)
    ensures Parts(s) == [s]
  {
    if s != [] {
      OnePart(s[1..]);
      assert [s[0]] + s[1..] == s;
    }
  }

  lemma {:induction false} PlainIsClean(s: string)
    requires Plain(s)
    ensures Clean(s)
  {
    forall i | 0 <= i < |s| - 2 ensures !Encoded(s, i) {
      assert s[i] != '%';
    }
  }

  /** Whatever a file is called, the key made of a folder and its stored name is
      one that folder's door accepts. */
  lemma {:induction false} StoredNameFitsItsDoor(d: Door, f: Folding, raw: string, extension: string)
    requires GoodDoor(d) && (extension == "" || IsExtension(extension))
    ensures Owns(d, FolderOf(d.segments) + StorageName(f, raw, extension))
  {
    var folder, n := FolderOf(d.segments), StorageName(f, raw, extension);
    StorageNameIs(f, raw, extension);
    assert (folder + n)[|folder|..] == n;
    OnePart(n);
    PlainIsClean(n);
    assert Names(n);
  }

  predicate Plain(s: string) { forall i :: 0 <= i < |s| ==> SegmentChar(s[i]) || s[i] == '/' }

  lemma {:induction false} PlainJoin(a: string, b: string)
    requires Plain(a) && Plain(b)
    ensures Plain(a + "/" + b)
  {
    var t := a + "/" + b;
    forall i | 0 <= i < |t| ensures SegmentChar(t[i]) || t[i] == '/' {
      if i == |a| {
        assert t[i] == '/';
      } else if i < |a| {
        assert t[i] == a[i];
      } else {
        assert t[i] == b[i - |a| - 1];
      }
    }
  }

  lemma {:induction false} FolderIsPlain(segments: seq<string>)
    requires forall i :: 0 <= i < |segments| ==> IsSegment(segments[i])
    ensures Plain(FolderOf(segments))
  {
    if segments != [] {
      FolderIsPlain(segments[1..]);
      assert IsSegment(segments[0]);
      PlainJoin(segments[0], FolderOf(segments[1..]));
    }
  }

  /** Doors of any depth share some key exactly when one folder lies in the other. */
  lemma {:induction false} DoorsOverlapWhen(d: Door, e: Door)
    requires GoodDoor(d) && GoodDoor(e) && |d.segments| <= |e.segments|
    ensures (exists path :: Owns(d, path) && Owns(e, path)) <==> d.segments <= e.segments
  {
    if path :| Owns(d, path) && Owns(e, path) {
      OwnsByParts(d, path);
      OwnsByParts(e, path);
      assert d.segments == e.segments[..|d.segments|];
    }
    if d.segments <= e.segments {
      SharedKey(d, e);
    }
  }

  lemma {:induction false} SharedKey(d: Door, e: Door)
    requires GoodDoor(d) && GoodDoor(e) && d.segments <= e.segments
    ensures var path := FolderOf(e.segments) + "a"; Owns(d, path) && Owns(e, path)
  {
    var path := FolderOf(e.segments) + "a";
    SegmentsArePlain(d);
    SegmentsArePlain(e);
    OnePart("a");
    PartsUnder(e.segments, "a");
    FolderIsPlain(e.segments);
    assert Parts(path) == e.segments + ["a"];
    forall i | 0 <= i < |Parts(path)| ensures Names(Parts(path)[i]) {
      if i < |e.segments| {
        assert IsAlnum(e.segments[i][0]);
      }
    }
    PlainIsClean(path);
    PlainPieces(path, d);
    PlainPieces(path, e);
    OwnsByParts(d, path);
    OwnsByParts(e, path);
  }

  lemma {:induction false} PlainPieces(path: string, d: Door)
    requires Plain(path)
    ensures Clean(Below(d, path))
  {
    PlainIsClean(Below(d, path));
  }
}
