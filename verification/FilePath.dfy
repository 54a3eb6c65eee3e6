/** The path object: its device and path strings rewritten in place. */
module FilePaths {
  import opened PathForm
  import opened Paths

  /** End of the piece that starts at pos. */
  method FindSlash(s: string, pos: nat) returns (end: nat)
    requires pos <= |s|
    ensures pos <= end <= |s| && Segments(s[pos..]) ==
            if end == |s| then [s[pos..end]] else [s[pos..end]] + Segments(s[end + 1..])
  {
    end := pos;
    while end < |s| && s[end] != '/'
      invariant pos <= end <= |s| && '/' !in s[pos..end]
    {
      assert s[pos..end + 1] == s[pos..end] + [s[end]];
      end := end + 1;
    }
    assert s[pos..][..end - pos] == s[pos..end];
    SegmentsAt(s[pos..], end - pos);
    if end < |s| {
      assert s[pos..][end - pos + 1..] == s[end + 1..];
    } else {
      assert s[pos..end] == s[pos..];
    }
  }

  class FilePath {
    var device: string
    var path: string

    ghost function Value(): (p: Path)
      reads this
    {
      Path(device, path)
    }

    constructor (s: string)
      ensures Value() == Parse(s)
    {
      device, path := "", s;
      new;
      SetDevice();
      NormalizePath();
    }

    /** `operator=` from a string. */
    method Assign(s: string)
      modifies this
      ensures Value() == Parse(s)
    {
      device, path := "", s;
      SetDevice();
      NormalizePath();
    }

    method SetDevice()
      requires device == ""
      modifies this
      ensures Value() == Split(old(path))
    {
      var n := DeviceLength(path);
      if n > 0 {
        device := path[..n];
        var start := n;
        if |path| > start {
          if path[start] != '/' {
            start := start - 1;
            path := path[start := '/'];
          }
          path := path[start..];
        } else {
          path := "/";
        }
      }
    }

    method NormalizePath()
      modifies this
      ensures Value() == Normalized(old(Value()))
    {
      hide HasSpecial, Segments, Resolve, Render;
      if path == "" {
        Nothing();
        return;
      }
      path := Slashes(path);
      var absolute, trail := path[0] == '/', |path| > 1 && path[|path| - 1] == '/';
      var npath := ResolvePath(absolute);
      Rebuild(Form(absolute, npath, trail));
    }

    /** The path is printed, and the device flagged if a special character is left. */
    method Rebuild(f: Form)
      modifies this
      ensures path == Render(f)
      ensures device == if HasSpecial(path) && !Flagged(old(device)) then old(device) + "*" else old(device)
    {
      hide HasSpecial, Join;
      NoSpecialText();
      path := "";
      if f.absolute {
        path := path + "/";
      } else if f.elems == [] {
        path := path + ".";
        if f.trail {
          path := path + "/";
        }
      }
      if f.elems != [] {
        AppendElements(f.elems);
        SpecialConcat(path, "/");
        if HasSpecial(path) {
          if device == "" || device[|device| - 1] != '*' {
            device := device + "*";
          }
        }
        if f.trail {
          path := path + "/";
        }
      }
      if f.elems != [] {
        assert "/" + Join(f.elems) + "/" == "/" + (Join(f.elems) + "/");
        assert Join(f.elems) + "" == Join(f.elems);
      } else {
        assert path == if f.absolute then "/" else if f.trail then "./" else ".";
        assert "/" + "" == "/";
      }
    }

    /** The stack of elements after reading the path piece by piece. */
    method ResolvePath(absolute: bool) returns (npath: seq<string>)
      ensures npath == Resolve(absolute, Segments(path))
    {
      hide Push, Segments, Resolve;
      npath := [];
      var pos := 0;
      ghost var done, last := [], false;
      assert path[0..] == path;
      NothingResolved(absolute);
      while pos < |path|
        invariant pos <= |path|
        invariant Segments(path) == done + (if pos == |path| && last then [] else Segments(path[pos..]))
        invariant npath == Resolve(absolute, done)
      {
        var end := FindSlash(path, pos);
        var s := path[pos..end];
        ResolveNext(absolute, done, s);
        npath := PushPiece(npath, absolute, s);
        last := end == |path|;
        if end < |path| {
          assert done + ([s] + Segments(path[end + 1..])) == (done + [s]) + Segments(path[end + 1..]);
        }
        done := done + [s];
        pos := if end < |path| then end + 1 else |path|;
      }
      if !last {
        assert path[pos..] == "";
        OneSegment("");
        BlanksIgnored(absolute, done);
      } else {
        assert done + [] == done;
      }
    }

    /** One piece between slashes. */
    static method PushPiece(stack: seq<string>, absolute: bool, piece: string) returns (npath: seq<string>)
      ensures npath == Push(stack, absolute, piece)
    {
      npath := stack;
      var s := piece;
      if s == "" || s == "." {
        return;
      }
      while |s| > 2 && (s[|s| - 1] == '.' || s[|s| - 1] == ' ')
        invariant Trim(s) == Trim(piece)
      {
        s := s[..|s| - 1];
      }
      if s == ".." {
        if npath != [] {
          npath := npath[..|npath| - 1];
          return;
        } else if absolute {
          return;
        }
      }
      npath := npath + [s];
    }

    /** The elements, with slashes between them. */
    method AppendElements(npath: seq<string>)
      requires npath != []
      modifies this`path
      ensures path == old(path) + Join(npath)
    {
      path := path + npath[0];
      var i := 1;
      assert npath[..1] == [npath[0]];
      while i < |npath|
        invariant 1 <= i <= |npath|
        invariant path == old(path) + Join(npath[..i])
      {
        assert npath[..i + 1][..i] == npath[..i];
        path := path + "/";
        path := path + npath[i];
        i := i + 1;
      }
      assert npath[..|npath|] == npath;
    }

    /** `operator/=`; false when it throws, which leaves the path alone. */
    method AppendPath(rhs: Path) returns (ok: bool)
      modifies this
      ensures ok <==> Append(old(Value()), rhs).Ok?
      ensures Value() == if ok then Append(old(Value()), rhs).value else old(Value())
    {
      hide Normalized;
      if path == "" {
        device := rhs.device;
        if rhs.path == "" || rhs.path[0] != '/' {
          path := path + "/" + rhs.path;
        } else {
          path := path + rhs.path;
        }
      } else {
        if rhs.device != "" {
          return false;
        }
        if path[|path| - 1] != '/' && (rhs.path == "" || rhs.path[0] != '/') {
          path := path + "/" + rhs.path;
        } else {
          path := path + rhs.path;
        }
      }
      NormalizePath();
      return true;
    }

    /** `BasePath()` */
    method Base() returns (b: Path)
      ensures b == BasePath(Value())
    {
      var len := |path|;
      if len == 0 {
        return Path("", "");
      }
      if path[len - 1] == '/' {
        len := len - 1;
      }
      var pos := if len == |path| then len - 1 else len;
      while pos >= 0 && path[pos] != '/'
        invariant -1 <= pos < |path|
        invariant LastSlash(path, |path|) == LastSlash(path, pos + 1)
      {
        pos := pos - 1;
      }
      if pos == -1 {
        return Path("", ".");
      }
      if pos == 0 {
        pos := 1;
      }
      return Path(device, path[..pos]);
    }
  }

  lemma {:induction false} NothingResolved(absolute: bool)
    ensures Resolve(absolute, []) == []
  {
  }
}
