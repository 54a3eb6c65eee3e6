/** Paths with a device: parsing, printing, appending, containing paths and native paths. */
module Paths {
  import opened PathForm

  datatype Path = Path(device: string, path: string)

  datatype Result<T> = Ok(value: T) | Err(reason: string)

  // ---------------------------------------------------------------- devices and flags

  predicate Letter(c: char) {
    'a' <= c <= 'z' || 'A' <= c <= 'Z'
  }

  function Letters(s: string): (n: nat)
    ensures n <= |s|
  {
    if s != "" && Letter(s[0]) then 1 + Letters(s[1..]) else 0
  }

  /** Length of the device prefix: one or more letters and a colon. */
  function DeviceLength(s: string): (n: nat)
    ensures n <= |s|
  {
    var n := Letters(s);
    if 0 < n < |s| && s[n] == ':' then n + 1 else 0
  }

  /** `SetDevice`: the device goes, and the rest is made absolute. */
  function Split(s: string): (p: Path) {
    var n := DeviceLength(s);
    if n == 0 then Path("", s)
    else Path(s[..n], if Absolute(s[n..]) then s[n..] else "/" + s[n..])
  }

  /** Characters that make a path invalid. */
  predicate Special(c: char) {
    c < ' ' || c in ":>*?\"<|"
  }

  predicate HasSpecial(s: string) {
    exists i :: 0 <= i < |s| && Special(s[i])
  }

  predicate Flagged(device: string) {
    device != "" && device[|device| - 1] == '*'
  }

  /** `NormalizePath`, flagging the device when a special character is left. */
  function Normalized(p: Path): (r: Path) {
    var n := Normal(p.path);
    Path(if HasSpecial(n) && !Flagged(p.device) then p.device + "*" else p.device, n)
  }

  function Parse(s: string): (p: Path) {
    Normalized(Split(s))
  }

  function ToString(p: Path): (s: string) {
    p.device + p.path
  }

  predicate Valid(p: Path) {
    p.path != "" && !Flagged(p.device)
  }

  // ---------------------------------------------------------------- operations

  /** `operator/=` */
  function Append(lhs: Path, rhs: Path): (r: Result<Path>) {
    if lhs.path == "" then
      Ok(Normalized(Path(rhs.device, if Absolute(rhs.path) then lhs.path + rhs.path else lhs.path + "/" + rhs.path)))
    else if rhs.device != "" then Err("Append invalid")
    else if lhs.path[|lhs.path| - 1] != '/' && !Absolute(rhs.path) then
      Ok(Normalized(Path(lhs.device, lhs.path + "/" + rhs.path)))
    else Ok(Normalized(Path(lhs.device, lhs.path + rhs.path)))
  }

  /** Position of the last slash before n, or -1. */
  function LastSlash(s: string, n: nat): (i: int)
    requires n <= |s|
    ensures -1 <= i < n
  {
    if n == 0 then -1 else if s[n - 1] == '/' then n - 1 else LastSlash(s, n - 1)
  }

  /** `BasePath`; with a final slash, that slash is the one found. */
  function BasePath(p: Path): (r: Path) {
    if p.path == "" then Path("", "")
    else
      var i := LastSlash(p.path, |p.path|);
      if i == -1 then Path("", ".") else Path(p.device, p.path[..if i == 0 then 1 else i])
  }

  /** `GetNativePath` where there are no devices, given the assets base; `assets:` in lower case only. */
  function Native(p: Path, assets: Path): (r: Result<string>) {
    if !Valid(p) then Err("invalid path")
    else if |p.device| > 2 then
      if p.device != "assets:" then Err("root device not available")
      else if assets == Path("", "") then Err("no assets")
      else
        match Append(assets, Parse(p.path))
        case Err(reason) => Err(reason)
        case Ok(asset) => if asset.device != "" then Err("root device not available") else Ok(asset.path)
    else if p.device != "" then Err("root device not available")
    else Ok(p.path)
  }

  // ---------------------------------------------------------------- normalising

  /** Normalising a path twice is normalising it once, device and all. */
  lemma {:induction false} NormalizedTwice(p: Path)
    ensures Normalized(Normalized(p)) == Normalized(p)
  {
    hide Normal, HasSpecial;
    NormalTwice(p.path);
  }

  // ---------------------------------------------------------------- well-formed paths

  predicate IsDevice(d: string) {
    |d| > 1 && DeviceLength(d) == |d|
  }

  /** What every path made by the operations satisfies. */
  predicate WellFormed(p: Path) {
    && IsNormal(p.path)
    && (p.path == "" ==> p.device == "")
    && (Valid(p) ==> (p.device == "" || (IsDevice(p.device) && Absolute(p.path))) && !HasSpecial(p.path))
  }

  lemma {:induction false} LettersPrefix(d: string, rest: string)
    requires Letters(d) < |d|
    ensures Letters(d + rest) == Letters(d)
    decreases |d|
  {
    if d != "" && Letter(d[0]) {
      assert (d + rest)[1..] == d[1..] + rest;
      LettersPrefix(d[1..], rest);
    }
  }

  /** The prefix of a parsed string is a device. */
  lemma {:induction false} SplitDevice(s: string)
    requires DeviceLength(s) > 0
    ensures IsDevice(s[..DeviceLength(s)])
  {
    var n := Letters(s);
    var d := s[..n + 1];
    LettersCut(s, n + 1);
    assert Letters(d) == n && d[n] == ':';
  }

  lemma {:induction false} LettersCut(s: string, m: nat)
    requires Letters(s) < m <= |s|
    ensures Letters(s[..m]) == Letters(s)
    decreases |s|
  {
    if s != "" && Letter(s[0]) {
      assert s[..m][1..] == s[1..][..m - 1];
      LettersCut(s[1..], m - 1);
    }
  }

  lemma {:induction false} NormalAbsolute(s: string)
    requires s != ""
    ensures Normal(s) != "" && (Absolute(Normal(s)) <==> s[0] == '/' || s[0] == '\\')
  {
    hide FormOf, Canonical;
    NormalForm(s);
    assert FormOf(Slashes(s)).absolute == (Slashes(s)[0] == '/') by { FormAbsolute(Slashes(s)); }
    FormAbsolute(Normal(s));
    CanonicalAbsolute(FormOf(Slashes(s)));
  }

  lemma {:induction false} CanonicalAbsolute(f: Form)
    ensures Canonical(f).absolute == f.absolute
  {
  }

  lemma {:induction false} FormAbsolute(s: string)
    requires s != ""
    ensures FormOf(s).absolute == (s[0] == '/')
  {
  }

  /** Normalising a device and a path absolute if there is a device makes a well-formed path. */
  lemma {:induction false} NormalizedWellFormed(p: Path)
    requires p.path == "" ==> p.device == ""
    requires Flagged(p.device) || p.device == "" || (IsDevice(p.device) && Absolute(p.path))
    ensures WellFormed(Normalized(p))
  {
    hide Normal, HasSpecial, IsDevice;
    NormalTwice(p.path);
    if p.path != "" {
      NormalAbsolute(p.path);
    } else {
      Nothing();
    }
  }

  lemma {:induction false} Nothing()
    ensures Normal("") == "" && !HasSpecial("")
  {
  }

  lemma {:induction false} ParseWellFormed(s: string)
    ensures WellFormed(Parse(s))
  {
    hide Normal, HasSpecial, IsDevice, Normalized, WellFormed;
    if DeviceLength(s) > 0 {
      SplitDevice(s);
    }
    NormalizedWellFormed(Split(s));
  }

  lemma {:induction false} AppendWellFormed(lhs: Path, rhs: Path)
    requires WellFormed(lhs) && WellFormed(rhs) && Append(lhs, rhs).Ok?
    ensures WellFormed(Append(lhs, rhs).value)
  {
    hide Normal, HasSpecial, IsDevice, Normalized;
    if lhs.path == "" {
      NormalizedWellFormed(
        Path(rhs.device, if Absolute(rhs.path) then lhs.path + rhs.path else lhs.path + "/" + rhs.path));
    } else {
      NormalizedWellFormed(Path(lhs.device, lhs.path + "/" + rhs.path));
      NormalizedWellFormed(Path(lhs.device, lhs.path + rhs.path));
    }
  }

  /**
   Appending is normalising the two paths with a slash between them, whichever slashes they bring along;
   it throws exactly if something with a device is appended to something that is not empty.
   */
  lemma {:induction false} AppendJoins(lhs: Path, rhs: Path)
    ensures Append(lhs, rhs).Ok? <==> lhs.path == "" || rhs.device == ""
    ensures Append(lhs, rhs).Ok? ==>
              var p := Append(lhs, rhs).value;
              && p.path == Normal(lhs.path + "/" + rhs.path)
              && p.device in {if lhs.path == "" then rhs.device else lhs.device,
                              (if lhs.path == "" then rhs.device else lhs.device) + "*"}
  {
    hide Normal, HasSpecial, Flagged;
    var l, r := lhs.path, rhs.path;
    if Absolute(r) {
      var rest := r[1..];
      assert r == "/" + rest && l + r == l + "/" + rest && l + "/" + r == l + "/" + "/" + rest;
      if l == "" {
        assert l + "/" + rest == "/" + rest && l + "/" + "/" + rest == "/" + "/" + rest;
        DoubledRoot(rest);
      } else {
        DoubledSlash(l, rest);
      }
    } else if l != "" && l[|l| - 1] == '/' {
      var front := l[..|l| - 1];
      assert l == front + "/" && l + r == front + "/" + r && l + "/" + r == front + "/" + "/" + r;
      if front == "" {
        assert front + "/" + r == "/" + r && front + "/" + "/" + r == "/" + "/" + r;
        DoubledRoot(r);
      } else {
        DoubledSlash(front, r);
      }
    }
  }

  // ---------------------------------------------------------------- containing paths

  lemma {:induction false} LastSlashOf(a: string, b: string)
    requires '/' !in b
    ensures LastSlash(a + "/" + b, |a + "/" + b|) == |a|
    decreases |b|
  {
    var s := a + "/" + b;
    if b == "" {
      assert s[|s| - 1] == '/';
    } else {
      var c := b[..|b| - 1];
      assert b[|b| - 1] in b;
      assert s[..|s| - 1] == a + "/" + c;
      LastSlashOf(a, c);
      LastSlashCut(s, |s| - 1);
    }
  }

  lemma {:induction false} LastSlashCut(s: string, n: nat)
    requires n <= |s|
    ensures LastSlash(s, n) == LastSlash(s[..n], |s[..n]|)
    decreases n
  {
    if n > 0 && s[n - 1] != '/' {
      assert s[..n][..n - 1] == s[..n - 1];
      LastSlashCut(s, n - 1);
      LastSlashCut(s[..n], n - 1);
    }
  }

  lemma {:induction false} NoSlash(s: string, n: nat)
    requires n <= |s| && '/' !in s
    ensures LastSlash(s, n) == -1
  {
    if n > 0 {
      assert s[n - 1] in s;
      NoSlash(s, n - 1);
    }
  }

  /** The form of the containing path. */
  function BaseForm(f: Form): (r: Form) {
    if f.trail || f.elems == [] then f.(trail := false) else Form(f.absolute, f.elems[..|f.elems| - 1], false)
  }

  /** Cutting a printed path at its last slash prints its base form. */
  lemma {:induction false} BaseRendered(f: Form, device: string)
    requires ResolvedForm(f) && Canonical(f) == f
    ensures BasePath(Path(device, Render(f))).path == Render(BaseForm(f))
    ensures BasePath(Path(device, Render(f))).device in {device, ""}
    ensures f.absolute ==> BasePath(Path(device, Render(f))).device == device
  {
    hide Join, Segments, Resolve;
    var s := Render(f);
    if f.elems == [] {
      if !f.absolute && !f.trail {
        NoSlash(".", 1);
      } else if f.trail {
        assert s == "." + "/" + "";
        LastSlashOf(".", "");
      } else {
        assert s == "" + "/" + "";
        LastSlashOf("", "");
      }
    } else if f.trail {
      BodyRead(f);
      TrailCut(f);
    } else {
      LastCut(f, device);
    }
  }

  /** A final slash is the last one. */
  lemma {:induction false} TrailCut(f: Form)
    requires ResolvedForm(f) && f.elems != [] && f.trail
    ensures var s := Render(f);
            LastSlash(s, |s|) == |s| - 1 > 0 && s[..|s| - 1] == Render(BaseForm(f))
  {
    var s, front := Render(f), Render(BaseForm(f));
    assert s == front + "/" + "";
    LastSlashOf(front, "");
    assert Body(BaseForm(f)) != "" by { BodyRead(BaseForm(f)); }
  }

  lemma {:induction false} LastCut(f: Form, device: string)
    requires ResolvedForm(f) && f.elems != [] && !f.trail
    ensures BasePath(Path(device, Render(f))).path == Render(BaseForm(f))
    ensures BasePath(Path(device, Render(f))).device in {device, ""}
    ensures f.absolute ==> BasePath(Path(device, Render(f))).device == device
  {
    hide Render, BasePath, IsElement;
    var n := |f.elems| - 1;
    var e := f.elems[n];
    PlainElement(e);
    if n > 0 {
      LastPiece(f);
      BaseOfLong(device, Render(BaseForm(f)), e);
    } else {
      OnlyPiece(f);
      BaseOfShort(device, e);
    }
  }

  lemma {:induction false} PlainElement(e: string)
    requires IsElement(e)
    ensures '/' !in e && e != ""
  {
  }

  lemma {:induction false} BaseOfLong(device: string, front: string, e: string)
    requires front != "" && '/' !in e
    ensures BasePath(Path(device, front + "/" + e)) == Path(device, front)
  {
    LastSlashOf(front, e);
    assert (front + "/" + e)[..|front|] == front;
  }

  lemma {:induction false} BaseOfShort(device: string, e: string)
    requires e != "" && '/' !in e
    ensures BasePath(Path(device, "/" + e)) == Path(device, "/")
    ensures BasePath(Path(device, e)) == Path("", ".")
  {
    var s := "/" + e;
    assert s == "" + "/" + e;
    LastSlashOf("", e);
    assert LastSlash(s, |s|) == 0;
    assert s[..1] == "/";
    NoSlash(e, |e|);
  }

  /** A printed path of several elements ends in its last, without final slash. */
  lemma {:induction false} LastPiece(f: Form)
    requires ResolvedForm(f) && |f.elems| > 1 && !f.trail
    ensures var front := Render(BaseForm(f));
            front != "" && Render(f) == front + "/" + f.elems[|f.elems| - 1]
  {
    hide Segments, Resolve;
    var b, e := BaseForm(f), f.elems[|f.elems| - 1];
    BaseResolved(f);
    BodyRead(b);
    assert Body(f) == Body(b) + "/" + e by { LastOfBody(f); }
    hide Body;
    if f.absolute {
      assert "/" + (Body(b) + "/" + e) == "/" + Body(b) + "/" + e;
    }
  }

  lemma {:induction false} LastOfBody(f: Form)
    requires |f.elems| > 1 && !f.trail
    ensures Body(f) == Body(BaseForm(f)) + "/" + f.elems[|f.elems| - 1]
  {
    var n := |f.elems| - 1;
    assert BaseForm(f).elems == f.elems[..n];
    assert Join(f.elems) == Join(f.elems[..n]) + "/" + f.elems[n];
  }

  lemma {:induction false} OnlyPiece(f: Form)
    requires |f.elems| == 1 && !f.trail
    ensures Render(f) == if f.absolute then "/" + f.elems[0] else f.elems[0]
    ensures Render(BaseForm(f)) == if f.absolute then "/" else "."
  {
    assert Body(f) == f.elems[0];
    assert Body(BaseForm(f)) == "" && "/" + "" == "/";
  }

  lemma {:induction false} BaseResolved(f: Form)
    requires ResolvedForm(f)
    ensures ResolvedForm(BaseForm(f))
  {
  }

  /**
   The containing path has the same elements if the path ended in a slash, and otherwise all but the last;
   it never ends in a slash itself, except that the root contains itself.
   */
  lemma {:induction false} BaseElements(p: Path)
    requires WellFormed(p) && p.path != ""
    ensures var b, es := BasePath(p), Elements(p.path);
            && IsNormal(b.path) && b.path != "" && !Trailing(b.path)
            && (Absolute(b.path) <==> Absolute(p.path))
            && Elements(b.path) == if Trailing(p.path) || es == [] then es else es[..|es| - 1]
  {
    hide Render, BasePath, Resolve, Segments, HasSpecial;
    NormalParts(p.path);
    var f := FormOf(p.path);
    BaseRendered(f, p.device);
    BaseResolved(f);
    ReadRendered(BaseForm(f));
    RenderNormal(BaseForm(f));
  }

  lemma {:induction false} BaseWellFormed(p: Path)
    requires WellFormed(p)
    ensures WellFormed(BasePath(p))
  {
    hide IsNormal, Elements, IsDevice, Normal, HasSpecial, Resolve, Segments, Render;
    if p.path == "" {
      Nothing();
      assert IsNormal("") by { NormalTwice(""); }
    } else {
      BaseElements(p);
      NormalParts(p.path);
      BaseRendered(FormOf(p.path), p.device);
      BaseIsPrefix(p);
    }
  }

  /** A containing path is a prefix, or the dot without device. */
  lemma {:induction false} BaseIsPrefix(p: Path)
    requires p.path != ""
    ensures var b := BasePath(p);
            b == Path("", ".") || (b.device == p.device && b.path <= p.path)
    ensures !HasSpecial(p.path) || Flagged(p.device) ==> !HasSpecial(BasePath(p).path) || Flagged(BasePath(p).device)
  {
    var b := BasePath(p);
    if b == Path("", ".") {
      NoSpecialText();
    } else {
      var i := LastSlash(p.path, |p.path|);
      assert b.path == p.path[..if i == 0 then 1 else i];
      assert forall k :: 0 <= k < |b.path| ==> b.path[k] == p.path[k];
    }
  }

  // ---------------------------------------------------------------- reading back what was printed

  lemma {:induction false} NoColon(s: string)
    requires !HasSpecial(s)
    ensures DeviceLength(s) == 0
  {
    var n := Letters(s);
    if n < |s| {
      assert !Special(s[n]);
    }
  }

  lemma {:induction false} DevicePrefix(d: string, rest: string)
    requires IsDevice(d)
    ensures DeviceLength(d + rest) == |d|
  {
    LettersPrefix(d, rest);
  }

  /** A valid path is parsed back from its string. */
  lemma {:induction false} ReadBack(p: Path)
    requires WellFormed(p) && Valid(p)
    ensures Parse(ToString(p)) == p
  {
    hide Normal, HasSpecial, IsDevice;
    var s := ToString(p);
    if p.device == "" {
      assert s == p.path;
      NoColon(s);
    } else {
      DevicePrefix(p.device, p.path);
      assert s[..|p.device|] == p.device && s[|p.device|..] == p.path;
      DeviceNonEmpty(p.device);
    }
    assert Split(s) == p;
    assert Normal(p.path) == p.path;
  }

  lemma {:induction false} DeviceNonEmpty(d: string)
    requires IsDevice(d)
    ensures |d| > 0
  {
  }

  // ---------------------------------------------------------------- every path that can be built

  datatype Build = Text(s: string) | Under(lhs: Build, rhs: Build) | Containing(of: Build)

  /** The path built by construction, appending and taking containing paths, unless an append throws. */
  function Built(b: Build): (r: Result<Path>) {
    match b
    case Text(s) => Ok(Parse(s))
    case Containing(of) =>
      (match Built(of)
       case Err(reason) => Err(reason)
       case Ok(p) => Ok(BasePath(p)))
    case Under(lhs, rhs) =>
      match Built(lhs)
      case Err(reason) => Err(reason)
      case Ok(l) =>
        match Built(rhs)
        case Err(reason) => Err(reason)
        case Ok(r) => Append(l, r)
  }

  lemma {:induction false} BuiltWellFormed(b: Build)
    requires Built(b).Ok?
    ensures WellFormed(Built(b).value)
  {
    hide WellFormed, Append, BasePath, Parse;
    match b
    case Text(s) => ParseWellFormed(s);
    case Containing(of) =>
      BuiltWellFormed(of);
      BaseWellFormed(Built(of).value);
    case Under(lhs, rhs) =>
      BuiltWellFormed(lhs);
      BuiltWellFormed(rhs);
      AppendWellFormed(Built(lhs).value, Built(rhs).value);
  }

  /** Every valid path that can be built is parsed back from its string, and is absolute if it has a device. */
  lemma {:induction false} BuiltReadBack(b: Build)
    requires Built(b).Ok? && Valid(Built(b).value)
    ensures var p := Built(b).value;
            && Parse(ToString(p)) == p
            && (p.device != "" ==> Absolute(p.path))
  {
    hide Parse, Built, HasSpecial, IsDevice;
    BuiltWellFormed(b);
    ReadBack(Built(b).value);
  }

  // ---------------------------------------------------------------- native paths

  /** A well-formed path has a native form exactly when it is valid and has no device but `assets:`. */
  lemma {:induction false} NativeIff(p: Path, assets: Path)
    requires WellFormed(p) && WellFormed(assets)
    ensures Native(p, assets).Ok? <==>
              Valid(p) && (p.device == "" || (p.device == "assets:" && assets.path != "" && assets.device == ""))
  {
    hide Normal, IsDevice, HasSpecial, Absolute;
    if Valid(p) && p.device == "assets:" {
      AssetParsed(p);
      if assets.path != "" && assets.device == "" {
        AssetElements(p, assets);
      } else if assets.path != "" {
        AppendKeepsDevice(assets, Parse(p.path));
      }
    }
  }

  lemma {:induction false} AppendKeepsDevice(lhs: Path, rhs: Path)
    requires lhs.path != "" && Append(lhs, rhs).Ok?
    ensures Append(lhs, rhs).value.device in {lhs.device, lhs.device + "*"}
  {
  }

  /** The path part of a valid path, parsed on its own. */
  lemma {:induction false} AssetParsed(p: Path)
    requires WellFormed(p) && Valid(p)
    ensures Parse(p.path) == Path("", p.path)
  {
    hide Normal, IsDevice, HasSpecial;
    NoColon(p.path);
  }

  /** The native form of an assets path: the elements of the assets base, followed by the path's own. */
  lemma {:induction false} AssetElements(p: Path, assets: Path)
    requires WellFormed(p) && Valid(p) && p.device == "assets:"
    requires WellFormed(assets) && Valid(assets) && assets.device == ""
    ensures Native(p, assets).Ok?
    ensures var n := Native(p, assets).value;
            && Elements(n) == Elements(assets.path) + Elements(p.path)
            && (Absolute(n) <==> Absolute(assets.path))
  {
    var s := assets.path + p.path;
    AssetParsed(p);
    assert Absolute(p.path);
    assert Append(assets, Path("", p.path)) == Ok(Normalized(Path("", s)));
    Concatenated(assets.path, p.path);
    NoSpecials(assets.path, p.path);
  }

  /** An absolute normal path after another normal path. */
  lemma {:induction false} Concatenated(a: string, b: string)
    requires IsNormal(a) && a != "" && IsNormal(b) && Absolute(b)
    ensures var n := Normal(a + b);
            && IsNormal(n) && n != ""
            && Elements(n) == Elements(a) + Elements(b)
            && (Absolute(n) <==> Absolute(a))
  {
    hide Normal, Resolve, Segments, Render;
    NormalParts(a);
    NormalParts(b);
    NormalTwice(a + b);
    NormalForm(a + b);
    assert Slashes(a + b) == a + b;
    var rest, es := b[1..], Elements(b);
    assert b == "/" + rest && a + b == a + "/" + rest;
    SegmentsConcat(a, rest);
    RestSegments(b);
    Appended(a[0] == '/', Segments(a), es, Segments(rest));
  }

  /** What follows the first slash of an absolute normal path. */
  lemma {:induction false} RestSegments(b: string)
    requires IsNormal(b) && Absolute(b)
    ensures Resolved(true, Elements(b))
    ensures Segments(b[1..]) == Elements(b) || Segments(b[1..]) == Elements(b) + [""]
  {
    hide Segments, IsNormal, Elements;
    NormalSegments(b);
    SegmentsOfRoot(b[1..]);
    assert "/" + b[1..] == b;
    if Elements(b) == [] {
      OneSegment("");
    } else {
      assert Segments(b)[1..] == Segments(b[1..]);
    }
  }

  lemma {:induction false} Appended(absolute: bool, xs: seq<string>, es: seq<string>, segs: seq<string>)
    requires Resolved(true, es) && (segs == es || segs == es + [""])
    ensures Resolve(absolute, xs + segs) == Resolve(absolute, xs) + es
  {
    hide Resolve, Resolved;
    ResolvedNames(es);
    ResolveAppends(absolute, xs, es);
    BlanksIgnored(absolute, xs + es);
    assert xs + (es + [""]) == xs + es + [""];
  }

  // ---------------------------------------------------------------- special characters come from elements

  predicate AnySpecial(es: seq<string>) {
    exists i :: 0 <= i < |es| && HasSpecial(es[i])
  }

  lemma {:induction false} SpecialConcat(a: string, b: string)
    ensures HasSpecial(a + b) <==> HasSpecial(a) || HasSpecial(b)
  {
    var s := a + b;
    if HasSpecial(s) {
      var i :| 0 <= i < |s| && Special(s[i]);
      if i < |a| {
        assert Special(a[i]);
      } else {
        assert Special(b[i - |a|]);
      }
    }
    if HasSpecial(a) {
      var i :| 0 <= i < |a| && Special(a[i]);
      assert Special(s[i]);
    }
    if HasSpecial(b) {
      var i :| 0 <= i < |b| && Special(b[i]);
      assert Special(s[|a| + i]);
    }
  }

  lemma {:induction false} SpecialJoin(es: seq<string>)
    requires es != []
    ensures HasSpecial(Join(es)) <==> AnySpecial(es)
  {
    hide HasSpecial;
    var front, e := es[..|es| - 1], es[|es| - 1];
    if |es| > 1 {
      SpecialJoin(front);
      SpecialConcat(Join(front) + "/", e);
      SpecialConcat(Join(front), "/");
      NoSpecialText();
      assert AnySpecial(es) <==> AnySpecial(front) || HasSpecial(e) by { SpecialLast(es); }
    } else {
      assert es == [e];
    }
  }

  lemma {:induction false} SpecialLast(es: seq<string>)
    requires es != []
    ensures AnySpecial(es) <==> AnySpecial(es[..|es| - 1]) || HasSpecial(es[|es| - 1])
  {
    hide HasSpecial;
    var front := es[..|es| - 1];
    if AnySpecial(front) {
      var i :| 0 <= i < |front| && HasSpecial(front[i]);
      assert HasSpecial(es[i]);
    }
  }

  lemma {:induction false} NoSpecialText()
    ensures !HasSpecial("/") && !HasSpecial("") && !HasSpecial(".") && !HasSpecial("./")
  {
  }

  /** A printed path has a special character exactly when one of its elements has. */
  lemma {:induction false} SpecialRender(f: Form)
    ensures HasSpecial(Render(f)) <==> AnySpecial(f.elems)
  {
    hide HasSpecial, Join;
    NoSpecialText();
    if f.elems != [] {
      SpecialJoin(f.elems);
      SpecialConcat(Join(f.elems), if f.trail then "/" else "");
      SpecialConcat("/", Body(f));
    } else {
      assert "/" + "" == "/";
    }
  }

  lemma {:induction false} NoSpecials(a: string, b: string)
    requires IsNormal(a) && a != "" && IsNormal(b) && Absolute(b)
    requires !HasSpecial(a) && !HasSpecial(b)
    ensures !HasSpecial(Normal(a + b))
  {
    hide HasSpecial, IsNormal, Render, FormOf, Normal;
    Concatenated(a, b);
    var n := Normal(a + b);
    NormalParts(n);
    NormalParts(a);
    NormalParts(b);
    SpecialRender(FormOf(n));
    SpecialRender(FormOf(a));
    SpecialRender(FormOf(b));
  }
}
