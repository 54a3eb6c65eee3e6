/**
 Paths as text: splitting at slashes, the stack that resolves `.` and `..`, printing the result, the
 device prefix, and what reading back what was printed gives.
 */
module PathForm {

  // ---------------------------------------------------------------- segments

  /** Position of the first slash, or the length. */
  function Slash(s: string): (i: nat)
    ensures i <= |s|
    ensures i < |s| ==> s[i] == '/'
    ensures '/' !in s[..i]
  {
    if s == "" || s[0] == '/' then 0
    else
      var i := 1 + Slash(s[1..]);
      assert s[..i] == [s[0]] + s[1..][..i - 1];
      i
  }

  /** The pieces between the slashes. */
  function Segments(s: string): (r: seq<string>)
    decreases |s|
  {
    var i := Slash(s);
    if i == |s| then [s] else [s[..i]] + Segments(s[i + 1..])
  }

  lemma {:induction false} SlashAt(s: string, i: nat)
    requires i <= |s| && '/' !in s[..i] && (i < |s| ==> s[i] == '/')
    ensures Slash(s) == i
    decreases i
  {
    if i > 0 {
      assert s[..i] == [s[0]] + s[1..][..i - 1];
      assert s[0] in s[..i];
      SlashAt(s[1..], i - 1);
    }
  }

  lemma {:induction false} SegmentsAt(s: string, i: nat)
    requires i <= |s| && '/' !in s[..i] && (i < |s| ==> s[i] == '/')
    ensures Segments(s) == if i == |s| then [s] else [s[..i]] + Segments(s[i + 1..])
  {
    SlashAt(s, i);
  }

  lemma {:induction false} SegmentsConcat(a: string, b: string)
    ensures Segments(a + "/" + b) == Segments(a) + Segments(b)
    decreases |a|
  {
    hide Segments, Slash;
    var all, i := a + "/" + b, Slash(a);
    assert all[..i] == a[..i];
    SegmentsAt(all, i);
    SegmentsAt(a, i);
    if i == |a| {
      assert all[i + 1..] == b && a[..i] == a;
    } else {
      assert all[i + 1..] == a[i + 1..] + "/" + b;
      SegmentsConcat(a[i + 1..], b);
      assert [a[..i]] + (Segments(a[i + 1..]) + Segments(b)) == ([a[..i]] + Segments(a[i + 1..])) + Segments(b);
    }
  }

  predicate Plain(e: string) {
    '/' !in e && '\\' !in e
  }

  lemma {:induction false} SegmentsPlain(s: string)
    requires '\\' !in s
    ensures forall i :: 0 <= i < |Segments(s)| ==> Plain(Segments(s)[i])
    decreases |s|
  {
    var i := Slash(s);
    assert '\\' !in s[..i];
    if i == |s| {
      assert s[..i] == s;
    } else {
      SegmentsPlain(s[i + 1..]);
    }
  }

  lemma {:induction false} OneSegment(e: string)
    requires '/' !in e
    ensures Segments(e) == [e]
  {
    assert e[..|e|] == e;
    SlashAt(e, |e|);
  }

  // ---------------------------------------------------------------- resolving

  /** Dots and spaces at the end go, as long as more than two characters are left. */
  function Trim(s: string): (r: string)
    ensures r <= s
    ensures |r| >= if |s| < 2 then |s| else 2
    ensures |r| > 2 ==> r[|r| - 1] != '.' && r[|r| - 1] != ' '
  {
    if |s| > 2 && (s[|s| - 1] == '.' || s[|s| - 1] == ' ') then Trim(s[..|s| - 1]) else s
  }

  /** What one segment does to the stack. */
  function Push(stack: seq<string>, absolute: bool, s: string): (r: seq<string>) {
    if s == "" || s == "." then stack
    else
      var e := Trim(s);
      if e == ".." && stack != [] then stack[..|stack| - 1]
      else if e == ".." && absolute then stack
      else stack + [e]
  }

  function Resolve(absolute: bool, segs: seq<string>): (r: seq<string>) {
    if segs == [] then []
    else Push(Resolve(absolute, segs[..|segs| - 1]), absolute, segs[|segs| - 1])
  }

  predicate IsElement(e: string) {
    e != "" && e != "." && Trim(e) == e && Plain(e)
  }

  /** No empty or dot element; `..` only as the first element of a relative path. */
  predicate Resolved(absolute: bool, es: seq<string>) {
    forall i :: 0 <= i < |es| ==> IsElement(es[i]) && (es[i] == ".." ==> i == 0 && !absolute)
  }

  lemma {:induction false} TrimElement(s: string)
    requires s != "" && s != "." && Plain(s)
    ensures IsElement(Trim(s))
  {
    var e := Trim(s);
    assert e == s[..|e|];
  }

  lemma {:induction false} ResolveResolved(absolute: bool, segs: seq<string>)
    requires forall i :: 0 <= i < |segs| ==> Plain(segs[i])
    ensures Resolved(absolute, Resolve(absolute, segs))
  {
    hide IsElement, Plain;
    if segs != [] {
      var s := segs[|segs| - 1];
      ResolveResolved(absolute, segs[..|segs| - 1]);
      if s != "" && s != "." {
        TrimElement(s);
      }
    }
  }

  /** Resolved elements resolve to themselves. */
  lemma {:induction false} ResolveAgain(absolute: bool, es: seq<string>)
    requires Resolved(absolute, es)
    ensures Resolve(absolute, es) == es
  {
    if es != [] {
      var front, e := es[..|es| - 1], es[|es| - 1];
      ResolveAgain(absolute, front);
      assert IsElement(e) && (e == ".." ==> front == [] && !absolute);
      assert es == front + [e];
    }
  }

  /** What comes after depends on what came before only through the stack. */
  lemma {:induction false} ResolveAfter(absolute: bool, xs: seq<string>, ys: seq<string>, zs: seq<string>)
    requires Resolve(absolute, xs) == Resolve(absolute, ys)
    ensures Resolve(absolute, xs + zs) == Resolve(absolute, ys + zs)
    decreases |zs|
  {
    if zs == [] {
      assert xs + zs == xs && ys + zs == ys;
    } else {
      var front := zs[..|zs| - 1];
      ResolveAfter(absolute, xs, ys, front);
      assert (xs + zs)[..|xs + zs| - 1] == xs + front && (ys + zs)[..|ys + zs| - 1] == ys + front;
    }
  }

  predicate Names(es: seq<string>) {
    forall i :: 0 <= i < |es| ==> es[i] != ".."
  }

  predicate Trimmed(es: seq<string>) {
    forall i :: 0 <= i < |es| ==> es[i] != "" && es[i] != "." && Trim(es[i]) == es[i]
  }

  lemma {:induction false} ResolvedNames(es: seq<string>)
    requires Resolved(true, es)
    ensures Trimmed(es) && Names(es)
  {
    assert forall i :: 0 <= i < |es| ==> IsElement(es[i]);
  }

  /** Elements without `..` are simply appended. */
  lemma {:induction false} ResolveAppends(absolute: bool, xs: seq<string>, es: seq<string>)
    requires Trimmed(es) && Names(es)
    ensures Resolve(absolute, xs + es) == Resolve(absolute, xs) + es
    decreases |es|
  {
    if es == [] {
      assert xs + es == xs;
    } else {
      var front, e := es[..|es| - 1], es[|es| - 1];
      ResolveAppends(absolute, xs, front);
      assert (xs + es)[..|xs + es| - 1] == xs + front;
      assert es == front + [e];
    }
  }

  /** In a relative path a kept `..` is itself popped by the next one. */
  lemma {:induction false} UpUpCancels(segs: seq<string>)
    ensures Resolve(false, ["..", ".."] + segs) == Resolve(false, segs)
  {
    assert ["..", ".."][..1] == [".."] && [".."][..0] == [];
    assert Resolve(false, [".."]) == [".."];
    assert Resolve(false, ["..", ".."]) == [];
    ResolveAfter(false, ["..", ".."], [], segs);
    assert [] + segs == segs;
  }

  lemma {:induction false} ResolveNext(absolute: bool, done: seq<string>, s: string)
    ensures Resolve(absolute, done + [s]) == Push(Resolve(absolute, done), absolute, s)
  {
    assert (done + [s])[..|done|] == done;
  }

  // ---------------------------------------------------------------- printing

  datatype Form = Form(absolute: bool, elems: seq<string>, trail: bool)

  function Join(es: seq<string>): (r: string)
    requires es != []
  {
    if |es| == 1 then es[0] else Join(es[..|es| - 1]) + "/" + es[|es| - 1]
  }

  function Body(f: Form): (r: string) {
    if f.elems == [] then "" else Join(f.elems) + if f.trail then "/" else ""
  }

  function Render(f: Form): (r: string)
    ensures r != "" || (f.elems != [] && !f.absolute)
  {
    if f.absolute then "/" + Body(f)
    else if f.elems == [] then if f.trail then "./" else "."
    else Body(f)
  }

  function FormOf(s: string): (f: Form)
    requires s != ""
  {
    Form(s[0] == '/', Resolve(s[0] == '/', Segments(s)), |s| > 1 && s[|s| - 1] == '/')
  }

  predicate ResolvedForm(f: Form) {
    Resolved(f.absolute, f.elems)
  }

  /** A slash at the end is not seen on the root alone. */
  function Canonical(f: Form): (r: Form) {
    f.(trail := f.trail && (f.elems != [] || !f.absolute))
  }

  lemma {:induction false} JoinShape(es: seq<string>)
    requires es != [] && forall i :: 0 <= i < |es| ==> es[i] != "" && Plain(es[i])
    ensures Join(es) != "" && Join(es)[0] != '/' && Join(es)[|Join(es)| - 1] != '/' && '\\' !in Join(es)
    ensures Segments(Join(es)) == es
    ensures Join(es)[0] == es[0][0]
  {
    var front, e := es[..|es| - 1], es[|es| - 1];
    assert Plain(e) && e != "";
    OneSegment(e);
    if |es| == 1 {
      assert es == [e];
      assert e[0] in e && e[|e| - 1] in e;
    } else {
      assert forall i :: 0 <= i < |front| ==> front[i] == es[i];
      JoinShape(front);
      SegmentsConcat(Join(front), e);
      assert es == front + [e];
      assert e[|e| - 1] in e;
    }
  }

  lemma {:induction false} SegmentsOfRoot(s: string)
    ensures Segments("/" + s) == [""] + Segments(s)
  {
    OneSegment("");
    SegmentsConcat("", s);
    assert "" + "/" + s == "/" + s;
  }

  lemma {:induction false} SegmentsOfTrail(s: string)
    ensures Segments(s + "/") == Segments(s) + [""]
  {
    OneSegment("");
    SegmentsConcat(s, "");
    assert s + "/" + "" == s + "/";
  }

  lemma {:induction false} BlanksIgnored(absolute: bool, es: seq<string>)
    ensures Resolve(absolute, [""] + es) == Resolve(absolute, es)
    ensures Resolve(absolute, es + [""]) == Resolve(absolute, es)
  {
    assert [""][..0] == [];
    assert Resolve(absolute, [""]) == [];
    ResolveAfter(absolute, [""], [], es);
    assert [] + es == es;
    assert (es + [""])[..|es|] == es;
  }

  /** The segments of a body with elements. */
  lemma {:induction false} BodyRead(f: Form)
    requires ResolvedForm(f) && f.elems != []
    ensures var b := Body(f);
            && b != "" && b[0] != '/' && '\\' !in b && b[0] == f.elems[0][0]
            && (b[|b| - 1] == '/' <==> f.trail) && (f.trail ==> |b| > 1)
            && Segments(b) == f.elems + (if f.trail then [""] else [])
            && Resolve(f.absolute, Segments(b)) == f.elems
  {
    hide Resolve, Segments, Join;
    assert forall i :: 0 <= i < |f.elems| ==> IsElement(f.elems[i]);
    JoinShape(f.elems);
    ResolveAgain(f.absolute, f.elems);
    BlanksIgnored(f.absolute, f.elems);
    if f.trail {
      SegmentsOfTrail(Join(f.elems));
    } else {
      assert Body(f) == Join(f.elems) && f.elems + [] == f.elems;
    }
  }

  /** Reading what was printed gives the form back. */
  lemma {:induction false} ReadRendered(f: Form)
    requires ResolvedForm(f)
    ensures Render(f) != "" && '\\' !in Render(f)
    ensures FormOf(Render(f)) == Canonical(f) && Render(Canonical(f)) == Render(f)
  {
    hide Body, Segments, Resolve;
    if f.elems == [] {
      NoElements(f);
    } else {
      BodyRead(f);
      var b := Body(f);
      assert Body(Canonical(f)) == b;
      if f.absolute {
        SegmentsOfRoot(b);
        BlanksIgnored(true, Segments(b));
        assert Render(f) == "/" + b;
      }
    }
  }

  lemma {:induction false} NoElements(f: Form)
    requires f.elems == []
    ensures Render(f) != "" && '\\' !in Render(f)
    ensures FormOf(Render(f)) == Canonical(f) && Render(Canonical(f)) == Render(f)
  {
    OneSegment("");
    OneSegment(".");
    SegmentsOfRoot("");
    SegmentsOfTrail(".");
    assert "/" + "" == "/" && "." + "/" == "./";
    BlanksIgnored(f.absolute, [""]);
    BlanksIgnored(f.absolute, []);
    BlanksIgnored(f.absolute, ["."]);
    assert [] + [""] == [""];
    assert ["."][..0] == [];
    assert Resolve(f.absolute, ["."]) == [];
  }

  // ---------------------------------------------------------------- normal paths

  function Slashes(s: string): (r: string)
    ensures |r| == |s| && '\\' !in r
    ensures '\\' !in s ==> r == s
  {
    seq(|s|, i requires 0 <= i < |s| => if s[i] == '\\' then '/' else s[i])
  }

  /** The path part after `NormalizePath`. */
  function Normal(s: string): (r: string) {
    if s == "" then "" else Render(FormOf(Slashes(s)))
  }

  lemma {:induction false} FormResolved(s: string)
    requires s != "" && '\\' !in s
    ensures ResolvedForm(FormOf(s))
  {
    SegmentsPlain(s);
    ResolveResolved(s[0] == '/', Segments(s));
  }

  /** What a normal path looks like: its form prints to it. */
  lemma {:induction false} NormalForm(s: string)
    requires s != ""
    ensures var n, f := Normal(s), FormOf(Slashes(s));
            && n != "" && '\\' !in n && Slashes(n) == n
            && FormOf(n) == Canonical(f) && ResolvedForm(FormOf(n)) && Render(FormOf(n)) == n
  {
    FormResolved(Slashes(s));
    ReadRendered(FormOf(Slashes(s)));
  }

  predicate IsNormal(s: string) {
    Normal(s) == s
  }

  /** Normalising again changes nothing. */
  lemma {:induction false} NormalTwice(s: string)
    ensures IsNormal(Normal(s))
  {
    hide FormOf, Slashes, Canonical;
    if s != "" {
      NormalForm(s);
    }
  }

  lemma {:induction false} NormalParts(s: string)
    requires IsNormal(s) && s != ""
    ensures '\\' !in s && ResolvedForm(FormOf(s)) && Render(FormOf(s)) == s
    ensures Canonical(FormOf(s)) == FormOf(s)
  {
    NormalForm(s);
  }

  /** A resolved form prints to a normal path. */
  lemma {:induction false} RenderNormal(f: Form)
    requires ResolvedForm(f)
    ensures IsNormal(Render(f))
  {
    ReadRendered(f);
  }

  /** The form of a prefix and a tail. */
  lemma {:induction false} TailForm(c: string, d: string)
    requires c != ""
    ensures FormOf(c + "/" + d) ==
            Form(c[0] == '/', Resolve(c[0] == '/', Segments(c) + Segments(d)), d == "" || d[|d| - 1] == '/')
  {
    hide Resolve, Segments;
    SegmentsConcat(c, d);
    var s := c + "/" + d;
    assert s[0] == c[0] && |s| > 1 && s[|s| - 1] == if d == "" then '/' else d[|d| - 1];
  }

  lemma {:induction false} SlashesConcat(l: string, r: string)
    ensures Slashes(l + "/" + r) == Slashes(l) + "/" + Slashes(r)
  {
  }

  /** Normalising a prefix first makes no difference to what is appended raw. */
  lemma {:induction false} PrefixFirst(a: string, b: string)
    ensures Normal(Normal(a) + "/" + b) == Normal(a + "/" + b)
  {
    if a == "" {
      NormalNone();
    } else {
      hide Normal, Resolve, Segments, Render, ResolvedForm, FormOf, Canonical, Slashes;
      NormalForm(a);
      var n, c, d := Normal(a), Slashes(a), Slashes(b);
      SlashesConcat(n, b);
      SlashesConcat(a, b);
      TailForm(n, d);
      TailForm(c, d);
      SameFront(a);
      ResolveAfter(c[0] == '/', Segments(n), Segments(c), Segments(d));
      NormalIs(n + "/" + b);
      NormalIs(a + "/" + b);
    }
  }

  lemma {:induction false} NormalNone()
    ensures Normal("") == ""
  {
  }

  /** A path and its normal form are both absolute or both not, and have the same elements. */
  lemma {:induction false} SameFront(a: string)
    requires a != ""
    ensures var n, c := Normal(a), Slashes(a);
            && n != "" && (n[0] == '/' <==> c[0] == '/')
            && Resolve(c[0] == '/', Segments(n)) == Resolve(c[0] == '/', Segments(c))
  {
    hide Normal, Resolve, Segments, Render, ResolvedForm;
    NormalForm(a);
  }

  lemma {:induction false} NormalIs(s: string)
    requires s != ""
    ensures Normal(s) == Render(FormOf(Slashes(s)))
  {
  }

  lemma {:induction false} SameForm(s: string, t: string)
    requires |s| > 1 && |t| > 1 && (s[0] == '/' <==> t[0] == '/')
    requires s[|s| - 1] == '/' <==> t[|t| - 1] == '/'
    requires Resolve(s[0] == '/', Segments(s)) == Resolve(s[0] == '/', Segments(t))
    ensures FormOf(s) == FormOf(t)
  {
  }

  /** A doubled slash after a prefix is as good as one. */
  lemma {:induction false} DoubledSlash(l: string, r: string)
    requires l != ""
    ensures Normal(l + "/" + "/" + r) == Normal(l + "/" + r)
  {
    hide Normal, Resolve, Segments, Render, FormOf, Slashes;
    var c, d := Slashes(l), Slashes(r);
    SlashesConcat(l, r);
    SlashesConcat(l + "/", r);
    SlashesConcat(l, "");
    assert l + "/" + "" == l + "/" && c + "/" + Slashes("") == c + "/" by {
      NoSlashes();
    }
    TailForm(c, d);
    TailForm(c + "/", d);
    SegmentsOfTrail(c);
    BlanksIgnored(c[0] == '/', Segments(c));
    ResolveAfter(c[0] == '/', Segments(c) + [""], Segments(c), Segments(d));
    NormalIs(l + "/" + r);
    NormalIs(l + "/" + "/" + r);
  }

  lemma {:induction false} NoSlashes()
    ensures Slashes("") == ""
  {
  }

  /** So is one after a prefix that is only the root. */
  lemma {:induction false} DoubledRoot(r: string)
    ensures Normal("/" + "/" + r) == Normal("/" + r)
  {
    hide Normal, Resolve, Segments, ResolvedForm;
    var d := Slashes(r);
    var one, two := "/" + d, "/" + "/" + d;
    assert Slashes("/" + r) == one && Slashes("/" + "/" + r) == two;
    SegmentsOfRoot(d);
    SegmentsOfRoot("/" + d);
    assert "/" + ("/" + d) == two;
    BlanksIgnored(true, Segments("/" + d));
    NormalIs("/" + r);
    NormalIs("/" + "/" + r);
    if d == "" {
      NoSegments();
      assert one == "/" && two == "//";
      RootForms(FormOf(one), FormOf(two));
    } else {
      SameForm(one, two);
    }
  }

  lemma {:induction false} NoSegments()
    ensures Resolve(true, Segments("/")) == []
  {
    OneSegment("");
    SegmentsOfRoot("");
    assert "/" + "" == "/";
    BlanksIgnored(true, [""]);
    BlanksIgnored(true, []);
    assert [] + [""] == [""];
  }

  lemma {:induction false} RootForms(f: Form, g: Form)
    requires f.absolute && g.absolute && f.elems == [] && g.elems == []
    ensures Render(f) == Render(g)
  {
  }

  /** The elements of a normal path. */
  function Elements(s: string): (es: seq<string>) {
    if s == "" then [] else FormOf(s).elems
  }

  predicate Absolute(s: string) {
    s != "" && s[0] == '/'
  }

  predicate Trailing(s: string) {
    |s| > 1 && s[|s| - 1] == '/'
  }

  /**
   The segments of a normal path are its elements, with a blank before them when it is absolute and one
   after them for a final slash. No element is empty or a dot, and `..` is at most the first element of a
   relative path.
   */
  lemma {:induction false} NormalSegments(s: string)
    requires IsNormal(s) && s != ""
    ensures Resolved(Absolute(s), Elements(s))
    ensures Elements(s) != [] ==>
              Segments(s) == (if Absolute(s) then [""] else []) + Elements(s) + if Trailing(s) then [""] else []
    ensures Elements(s) == [] ==> s == (if Absolute(s) then "/" else if Trailing(s) then "./" else ".")
  {
    hide Segments, Resolve, Body;
    NormalParts(s);
    var f := FormOf(s);
    if f.elems != [] {
      BodyRead(f);
      if f.absolute {
        SegmentsOfRoot(Body(f));
        assert s == "/" + Body(f);
        assert [""] + f.elems + (if f.trail then [""] else []) == [""] + (f.elems + if f.trail then [""] else []);
      } else {
        assert s == Body(f);
      }
    } else {
      assert Body(f) == "" by { NoBody(f); }
    }
  }

  lemma {:induction false} NoBody(f: Form)
    requires f.elems == []
    ensures Body(f) == ""
  {
  }

  /** An element that ends in a dot or a space. */
  predicate DotEnding(e: string) {
    e != "" && (e[|e| - 1] == '.' || e[|e| - 1] == ' ')
  }

  /** Dots and spaces at the end are trimmed from long elements only. */
  lemma {:induction false} ElementIff(e: string)
    ensures IsElement(e) <==> e != "" && e != "." && Plain(e) && (|e| <= 2 || !DotEnding(e))
  {
  }

  /** Exactly the elements of one or two characters, `.` apart, can end in a dot or a space in a normal path. */
  lemma {:induction false} DotEndingIff(e: string)
    requires DotEnding(e)
    ensures (exists s :: IsNormal(s) && e in Elements(s)) <==> |e| <= 2 && e != "." && Plain(e)
  {
    hide Elements, IsNormal, IsElement;
    ElementIff(e);
    if IsElement(e) {
      OneElement(e);
    }
    forall s | IsNormal(s) && e in Elements(s) ensures IsElement(e) {
      assert s != "" by { NoElementsInNothing(); }
      NormalSegments(s);
      var i :| 0 <= i < |Elements(s)| && Elements(s)[i] == e;
    }
  }

  lemma {:induction false} NoElementsInNothing()
    ensures Elements("") == []
  {
  }

  lemma {:induction false} OneElement(e: string)
    requires IsElement(e)
    ensures IsNormal(e) && e in Elements(e)
  {
    var f := Form(false, [e], false);
    assert Join([e]) == e && Render(f) == e;
    RenderNormal(f);
    ReadRendered(f);
    assert Elements(e) == [e];
  }
}
