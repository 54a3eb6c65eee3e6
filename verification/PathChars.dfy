/**
 Which characters decide about a path: the letters and the colon that make a device, the two slashes,
 and the characters that make a path invalid, each given by itself or by its code.
 */
module PathChars {
  import opened PathForm
  import opened Paths

  // ---------------------------------------------------------------- devices

  predicate AsciiLetter(c: char) {
    65 <= c as int <= 90 || 97 <= c as int <= 122
  }

  /** One or more letters, then a colon: n letters. */
  predicate DeviceOf(s: string, n: nat) {
    1 <= n < |s| && s[n] as int == 58 && forall i :: 0 <= i < n ==> AsciiLetter(s[i])
  }

  lemma {:induction false} LettersAre(s: string)
    ensures forall i :: 0 <= i < Letters(s) ==> AsciiLetter(s[i])
    ensures Letters(s) < |s| ==> !AsciiLetter(s[Letters(s)])
  {
    if s != "" && Letter(s[0]) {
      LettersAre(s[1..]);
      assert forall i :: 1 <= i < |s| ==> s[i] == s[1..][i - 1];
    }
  }

  /** A string starts with a device exactly if it starts with letters and a colon; there is one way to see it. */
  lemma {:induction false} DeviceIff(s: string, n: nat)
    ensures DeviceLength(s) == n + 1 <==> DeviceOf(s, n)
    ensures DeviceLength(s) == 0 <==> forall m :: !DeviceOf(s, m)
  {
    LettersAre(s);
    var l := Letters(s);
    assert 0 < l < |s| && s[l] == ':' ==> DeviceOf(s, l);
    forall m: nat | DeviceOf(s, m)
      ensures m == l
    {
      assert !AsciiLetter(s[m]);
    }
  }

  /** Parsing takes exactly the device off; what is left is made absolute by a slash if it is not. */
  lemma {:induction false} SplitIff(s: string)
    ensures var p := Split(s);
            && (p.device == "" ==> p.path == s && forall n :: !DeviceOf(s, n))
            && (p.device != "" ==> var n := |p.device| - 1;
                                   && DeviceOf(s, n) && p.device == s[..n + 1]
                                   && p.path[..1] == "/"
                                   && (p.path == s[n + 1..]
                                       || (p.path == "/" + s[n + 1..] && !(n + 1 < |s| && s[n + 1] == '/'))))
  {
    var n := DeviceLength(s);
    if n == 0 {
      DeviceIff(s, 0);
    } else {
      DeviceIff(s, n - 1);
    }
  }

  // ---------------------------------------------------------------- slashes

  predicate AnySlash(c: char) {
    c as int == 47 || c as int == 92
  }

  /** The same path but for which slashes are used. */
  predicate SameButSlashes(s: string, t: string) {
    |s| == |t| && forall i :: 0 <= i < |s| ==> s[i] == t[i] || (AnySlash(s[i]) && AnySlash(t[i]))
  }

  /** It makes no difference which of the two slashes a path is written with. */
  lemma {:induction false} SlashesAlike(s: string, t: string)
    requires SameButSlashes(s, t)
    ensures Normal(s) == Normal(t)
  {
    assert Slashes(s) == Slashes(t);
  }

  // ---------------------------------------------------------------- invalid paths

  /** A control character or one of : > * ? " < | */
  predicate Forbidden(c: char) {
    var n := c as int;
    n < 32 || n == 58 || n == 62 || n == 42 || n == 63 || n == 34 || n == 60 || n == 124
  }

  predicate AnyForbidden(es: seq<string>) {
    exists i, j :: 0 <= i < |es| && 0 <= j < |es[i]| && Forbidden(es[i][j])
  }

  /** The elements a string resolves to, after a device if there is one. */
  function Elems(s: string): (es: seq<string>) {
    var p := Split(s).path;
    if p == "" then [] else FormOf(Slashes(p)).elems
  }

  lemma {:induction false} SpecialIff(c: char)
    ensures Special(c) <==> Forbidden(c)
  {
  }

  lemma {:induction false} AnySpecialIff(es: seq<string>)
    ensures AnySpecial(es) <==> AnyForbidden(es)
  {
    hide Special, Forbidden;
    forall c ensures Special(c) <==> Forbidden(c) { SpecialIff(c); }
    if AnySpecial(es) {
      var i :| 0 <= i < |es| && HasSpecial(es[i]);
      var j :| 0 <= j < |es[i]| && Special(es[i][j]);
      assert Forbidden(es[i][j]);
    }
    if AnyForbidden(es) {
      var i, j :| 0 <= i < |es| && 0 <= j < |es[i]| && Forbidden(es[i][j]);
      assert Special(es[i][j]);
      assert HasSpecial(es[i]);
    }
  }

  /**
   A string is parsed to a valid path if and only if it is not empty and no element that is left after
   resolving holds a forbidden character; those in the device or in elements that `..` removes do not count.
   */
  lemma {:induction false} ValidIff(s: string)
    ensures Valid(Parse(s)) <==> s != "" && !AnyForbidden(Elems(s))
  {
    hide Special, HasSpecial, AnySpecial, AnyForbidden, FormOf, Render;
    var p := Split(s);
    SplitIff(s);
    assert !Flagged(p.device) by {
      if p.device != "" {
        assert p.device[|p.device| - 1] as int == 58;
      }
    }
    if p.path != "" {
      NormalForm(p.path);
      SpecialRender(FormOf(Slashes(p.path)));
      AnySpecialIff(Elems(s));
    }
  }

  /** A slash and one name: the one element is that name, and its characters decide. */
  lemma {:induction false} OneName(e: string)
    requires IsElement(e) && e != ".."
    ensures Elems("/" + e) == [e]
    ensures Valid(Parse("/" + e)) <==> forall j :: 0 <= j < |e| ==> !Forbidden(e[j])
  {
    hide Forbidden;
    var s := "/" + e;
    LettersAre(s);
    assert Split(s) == Path("", s);
    assert Slashes(s) == s;
    OneSegment(e);
    SegmentsOfRoot(e);
    BlanksIgnored(true, [e]);
    assert [e][..0] == [];
    assert Resolve(true, [e]) == [e];
    ValidIff(s);
  }
}
