/**
 What paths mean, and exactly when normalising them keeps it. Only a segment that is `..` goes up; every other
 one, `.` and the empty one apart, is a name.
 */
module PathMeaning {
  import opened PathForm

  // ---------------------------------------------------------------- the meaning

  /** A name that the code trims to `..`, and then takes for a step up. */
  predicate Climbs(s: string) {
    s != ".." && Trim(s) == ".."
  }

  predicate NothingClimbs(segs: seq<string>) {
    forall i :: 0 <= i < |segs| ==> !Climbs(segs[i])
  }

  /** Two dots, and then one or more dots and spaces. */
  lemma {:induction false} ClimbsIff(s: string)
    ensures Climbs(s) <==> |s| > 2 && s[..2] == ".." && forall i :: 2 <= i < |s| ==> s[i] == '.' || s[i] == ' '
    decreases |s|
  {
    if |s| > 2 {
      var front := s[..|s| - 1];
      assert front[..2] == s[..2];
      if |front| == 2 {
        assert front == s[..2];
      } else {
        ClimbsIff(front);
        assert s[|s| - 1] == '.' || s[|s| - 1] == ' ' ==> Trim(s) == Trim(front);
      }
    }
  }

  /** The name a segment stands for: without dots and spaces at the end, unless that leaves a step up. */
  function Name(s: string): (e: string) {
    if Climbs(s) then s else Trim(s)
  }

  /** From a known directory a step up at the root stays there. */
  function AbsPush(stack: seq<string>, s: string): (r: seq<string>) {
    if s == "" || s == "." || (s == ".." && stack == []) then stack
    else if s == ".." then stack[..|stack| - 1]
    else stack + [Name(s)]
  }

  /** Where the segments lead from the root. */
  function AbsResolve(segs: seq<string>): (r: seq<string>) {
    if segs == [] then [] else AbsPush(AbsResolve(segs[..|segs| - 1]), segs[|segs| - 1])
  }

  /** From an unknown directory a step up cancels the name before it, or is kept. */
  function StdPush(stack: seq<string>, s: string): (r: seq<string>) {
    if s == "" || s == "." then stack
    else if s == ".." then
      if stack != [] && stack[|stack| - 1] != ".." then stack[..|stack| - 1] else stack + [".."]
    else stack + [Name(s)]
  }

  /** The steps up that no name before them cancels, and then the names. */
  function StdResolve(segs: seq<string>): (r: seq<string>) {
    if segs == [] then [] else StdPush(StdResolve(segs[..|segs| - 1]), segs[|segs| - 1])
  }

  lemma {:induction false} AbsNext(done: seq<string>, s: string)
    ensures AbsResolve(done + [s]) == AbsPush(AbsResolve(done), s)
  {
    assert (done + [s])[..|done|] == done;
  }

  /** Names that stand for themselves. */
  predicate Named(es: seq<string>) {
    forall i :: 0 <= i < |es| ==> es[i] != "" && es[i] != "." && Name(es[i]) == es[i]
  }

  lemma {:induction false} NameAgain(s: string)
    requires s != "" && s != "."
    ensures Name(s) != "" && Name(s) != "." && Name(Name(s)) == Name(s)
    ensures s != ".." ==> Name(s) != ".."
  {
  }

  lemma {:induction false} StdNamed(segs: seq<string>)
    ensures Named(StdResolve(segs))
  {
    hide Name;
    if segs != [] {
      var s := segs[|segs| - 1];
      StdNamed(segs[..|segs| - 1]);
      if s != "" && s != "." {
        NameAgain(s);
        NameOfUp();
      }
    }
  }

  lemma {:induction false} NameOfUp()
    ensures Name("..") == ".."
  {
  }

  /** From any directory the uncancelled steps up and the names lead where the segments lead. */
  lemma {:induction false} PlacedStd(dir: seq<string>, segs: seq<string>)
    ensures AbsResolve(dir + segs) == AbsResolve(dir + StdResolve(segs))
    decreases |segs|
  {
    hide AbsPush, StdPush, Name;
    if segs != [] {
      var front, s := segs[..|segs| - 1], segs[|segs| - 1];
      var std := StdResolve(front);
      PlacedStd(dir, front);
      assert (dir + segs)[..|dir + segs| - 1] == dir + front;
      AbsNext(dir + front, s);
      StdNamed(front);
      PlacedPush(dir, std, s);
      assert StdResolve(segs) == StdPush(std, s);
    }
  }

  lemma {:induction false} PlacedPush(dir: seq<string>, std: seq<string>, s: string)
    requires Named(std)
    ensures AbsPush(AbsResolve(dir + std), s) == AbsResolve(dir + StdPush(std, s))
  {
    hide Name, AbsResolve;
    if s == "" || s == "." {
    } else if s == ".." && std != [] && std[|std| - 1] != ".." {
      var front, last := std[..|std| - 1], std[|std| - 1];
      AbsNext(dir + front, last);
      assert dir + std == dir + front + [last];
    } else {
      NameAgain(s);
      var e := if s == ".." then s else Name(s);
      AbsNext(dir + std, e);
      assert dir + (std + [e]) == dir + std + [e];
    }
  }

  // ---------------------------------------------------------------- steps up and names

  function Ups(n: nat): (r: seq<string>)
    ensures |r| == n && forall i :: 0 <= i < n ==> r[i] == ".."
  {
    if n == 0 then [] else Ups(n - 1) + [".."]
  }

  function LeadingUps(es: seq<string>): (n: nat)
    ensures n <= |es|
  {
    if es != [] && es[0] == ".." then 1 + LeadingUps(es[1..]) else 0
  }

  lemma {:induction false} LeadingOf(n: nat, names: seq<string>)
    requires Names(names)
    ensures LeadingUps(Ups(n) + names) == n && (Ups(n) + names)[n..] == names
    decreases n
  {
    if n > 0 {
      UpsFront(n);
      assert (Ups(n) + names)[1..] == Ups(n - 1) + names;
      LeadingOf(n - 1, names);
    } else {
      assert Ups(0) + names == names;
    }
  }

  lemma {:induction false} UpsFront(n: nat)
    requires n > 0
    ensures Ups(n) == [".."] + Ups(n - 1)
  {
    if n > 1 {
      UpsFront(n - 1);
      assert Ups(n) == [".."] + (Ups(n - 2) + [".."]);
    }
  }

  lemma {:induction false} MoreUps(n: nat)
    ensures Ups(n + 1) == Ups(n) + [".."]
  {
  }

  lemma {:induction false} FewUps(n: nat)
    ensures Ups((n + 1) % 2) == if n % 2 == 0 then Ups(n % 2) + [".."] else Ups(n % 2)[..0]
  {
    assert Ups(0) == [] && Ups(1) == [".."];
  }

  /** One segment more adds a step up, or a name, or takes a name. */
  lemma {:induction false} StdNext(n: nat, names: seq<string>, s: string) returns (m: nat, more: seq<string>)
    requires Names(names)
    ensures Names(more) && n <= m && StdPush(Ups(n) + names, s) == Ups(m) + more
    ensures s == "" || s == "." ==> m == n && more == names
    ensures s == ".." ==> if names == [] then m == n + 1 && more == [] else m == n && more == names[..|names| - 1]
    ensures s != "" && s != "." && s != ".." ==> m == n && more == names + [Name(s)]
  {
    hide Ups, Name;
    m, more := n, names;
    if s == "" || s == "." {
    } else if s != ".." {
      NameAgain(s);
      more := names + [Name(s)];
      assert Ups(n) + names + [Name(s)] == Ups(n) + more;
    } else if names != [] {
      more := names[..|names| - 1];
      assert (Ups(n) + names)[..n + |names| - 1] == Ups(n) + more;
    } else {
      m := n + 1;
      assert Ups(n) + names == Ups(n) && Ups(m) + more == Ups(m);
      MoreUps(n);
    }
  }

  /** What the segments mean is steps up, and then names; more segments do not take a step up back. */
  lemma {:induction false} StdForm(segs: seq<string>) returns (n: nat, names: seq<string>)
    ensures Names(names) && StdResolve(segs) == Ups(n) + names
    ensures n == LeadingUps(StdResolve(segs)) && names == StdResolve(segs)[n..]
    ensures segs != [] ==> LeadingUps(StdResolve(segs[..|segs| - 1])) <= n
  {
    hide StdPush, LeadingUps;
    if segs == [] {
      n, names := 0, [];
    } else {
      n, names := StdForm(segs[..|segs| - 1]);
      n, names := StdNext(n, names, segs[|segs| - 1]);
    }
    LeadingOf(n, names);
  }

  // ---------------------------------------------------------------- what the code reads

  /** The code takes for a step up what it trims to one. */
  function AsRead(s: string): (r: string) {
    if Climbs(s) then ".." else s
  }

  function AllRead(segs: seq<string>): (r: seq<string>)
    ensures |r| == |segs|
  {
    seq(|segs|, i requires 0 <= i < |segs| => AsRead(segs[i]))
  }

  lemma {:induction false} ReadFaithfully(segs: seq<string>)
    requires NothingClimbs(segs)
    ensures AllRead(segs) == segs
  {
  }

  lemma {:induction false} ReadFront(segs: seq<string>)
    requires segs != []
    ensures AllRead(segs)[..|segs| - 1] == AllRead(segs[..|segs| - 1])
  {
  }

  /** From the root, the code resolves what it reads as it should. */
  lemma {:induction false} ResolvesRead(segs: seq<string>)
    ensures Resolve(true, segs) == AbsResolve(AllRead(segs))
  {
    hide AllRead;
    if segs != [] {
      ResolvesRead(segs[..|segs| - 1]);
      ReadFront(segs);
      LastRead(segs);
    }
  }

  lemma {:induction false} LastRead(segs: seq<string>)
    requires segs != []
    ensures AllRead(segs)[|segs| - 1] == AsRead(segs[|segs| - 1])
  {
  }

  lemma {:induction false} PushParity(n: nat, names: seq<string>, m: nat, more: seq<string>, s: string)
    requires Names(names) && Names(more)
    requires var r := AsRead(s);
             && (r == "" || r == "." ==> m == n && more == names)
             && (r == ".." ==> if names == [] then m == n + 1 && more == []
                               else m == n && more == names[..|names| - 1])
             && (r != "" && r != "." && r != ".." ==> m == n && more == names + [Name(r)])
    ensures Push(Ups(n % 2) + names, false, s) == Ups(m % 2) + more
  {
    hide Ups;
    if s != "" && s != "." {
      if Trim(s) != ".." {
        assert Ups(n % 2) + names + [Trim(s)] == Ups(n % 2) + more;
      } else if names != [] {
        assert (Ups(n % 2) + names)[..n % 2 + |names| - 1] == Ups(n % 2) + more;
      } else {
        assert Ups(n % 2) + names == Ups(n % 2) && Ups(m % 2) + more == Ups(m % 2);
        FewUps(n);
      }
    }
  }

  lemma {:induction false} Parity(segs: seq<string>) returns (n: nat, names: seq<string>)
    ensures Names(names)
    ensures StdResolve(AllRead(segs)) == Ups(n) + names
    ensures Resolve(false, segs) == Ups(n % 2) + names
  {
    hide Push, StdPush, AllRead, AsRead, Name;
    if segs == [] {
      n, names := 0, [];
    } else {
      var m, more;
      n, names := Parity(segs[..|segs| - 1]);
      ReadFront(segs);
      LastRead(segs);
      m, more := StdNext(n, names, AsRead(segs[|segs| - 1]));
      PushParity(n, names, m, more, segs[|segs| - 1]);
      n, names := m, more;
    }
  }

  /**
   Of the leading `..` of a relative path, as it reads it, the code keeps the remainder by two, and everything
   after them.
   */
  lemma {:induction false} KeepsParity(segs: seq<string>)
    ensures var std := StdResolve(AllRead(segs));
            var n := LeadingUps(std);
            Resolve(false, segs) == Ups(n % 2) + std[n..]
  {
    hide Resolve, StdResolve;
    var n, names := Parity(segs);
    LeadingOf(n, names);
  }

  /** A relative path whose names are read as names is resolved as it should exactly if at most one `..` is left. */
  lemma {:induction false} ResolvesIff(segs: seq<string>)
    requires NothingClimbs(segs)
    ensures Resolve(false, segs) == StdResolve(segs) <==> LeadingUps(StdResolve(segs)) <= 1
  {
    hide Resolve, StdResolve, AllRead, NothingClimbs, Names;
    ReadFaithfully(segs);
    var n, names := Parity(segs);
    LeadingOf(n, names);
    LeadingOf(n % 2, names);
    hide Ups, LeadingUps;
  }

  // ---------------------------------------------------------------- from every directory

  /** The directories there are: no name of theirs is read as a step up. */
  lemma {:induction false} DirectoryRead(dir: seq<string>, segs: seq<string>)
    requires Resolved(true, dir)
    ensures NothingClimbs(dir) && AllRead(dir + segs) == dir + AllRead(segs)
  {
    forall i | 0 <= i < |dir| ensures !Climbs(dir[i]) {
      assert IsElement(dir[i]);
    }
  }

  function Homes(e: string, n: nat): (dir: seq<string>)
    ensures |dir| == n && forall i :: 0 <= i < n ==> dir[i] == e
  {
    seq(n, i => e)
  }

  lemma {:induction false} HomesResolved(e: string, n: nat)
    requires e == "a" || e == "b"
    ensures Resolved(true, Homes(e, n)) && AbsResolve(Homes(e, n)) == Homes(e, n)
  {
    assert Trim(e) == e && Name(e) == e && IsElement(e);
    if n > 0 {
      HomesResolved(e, n - 1);
      AbsNext(Homes(e, n - 1), e);
      assert Homes(e, n) == Homes(e, n - 1) + [e];
    }
  }

  /** How much deeper the segments lead, if the root does not stop them. */
  function Depth(segs: seq<string>): (d: int)
    ensures -|segs| <= d <= |segs|
  {
    if segs == [] then 0
    else
      var s := segs[|segs| - 1];
      Depth(segs[..|segs| - 1]) + if s == "" || s == "." then 0 else if s == ".." then -1 else 1
  }

  lemma {:induction false} DepthOf(e: string, n: nat, segs: seq<string>)
    requires (e == "a" || e == "b") && |segs| <= n
    ensures |AbsResolve(Homes(e, n) + segs)| == n + Depth(segs)
    decreases |segs|
  {
    hide Name, Homes;
    if segs == [] {
      HomesResolved(e, n);
      assert Homes(e, n) + segs == Homes(e, n);
    } else {
      var front, s := segs[..|segs| - 1], segs[|segs| - 1];
      DepthOf(e, n, front);
      AbsNext(Homes(e, n) + front, s);
      assert Homes(e, n) + segs == Homes(e, n) + front + [s];
    }
  }

  /** Whatever is read as a step up costs depth. */
  lemma {:induction false} DepthLost(segs: seq<string>)
    ensures Depth(AllRead(segs)) <= Depth(segs)
    ensures !NothingClimbs(segs) ==> Depth(AllRead(segs)) < Depth(segs)
  {
    hide AllRead, Climbs;
    if segs != [] {
      var front := segs[..|segs| - 1];
      DepthLost(front);
      ReadFront(segs);
      LastRead(segs);
      if Climbs(segs[|segs| - 1]) {
        ClimbsLong(segs[|segs| - 1]);
      }
      if !NothingClimbs(segs) {
        var i :| 0 <= i < |segs| && Climbs(segs[i]);
        assert i < |front| ==> front[i] == segs[i];
      }
    }
  }

  lemma {:induction false} ClimbsLong(s: string)
    requires Climbs(s)
    ensures s != "" && s != "." && s != ".."
  {
  }

  /**
   The code resolves segments as they should be from every directory if and only if none of them is a name that it
   trims to a step up.
   */
  lemma {:induction false} AbsoluteIff(segs: seq<string>)
    ensures (forall dir: seq<string> :: Resolved(true, dir) ==> Resolve(true, dir + segs) == AbsResolve(dir + segs))
            <==> NothingClimbs(segs)
  {
    hide AllRead, Homes, Resolve, AbsResolve, Resolved, Depth;
    if NothingClimbs(segs) {
      forall dir: seq<string> | Resolved(true, dir) ensures Resolve(true, dir + segs) == AbsResolve(dir + segs) {
        AbsoluteAgrees(dir, segs);
      }
    } else {
      var n := |segs|;
      var dir := Homes("a", n);
      HomesResolved("a", n);
      DirectoryRead(dir, segs);
      ResolvesRead(dir + segs);
      DepthOf("a", n, segs);
      DepthOf("a", n, AllRead(segs));
      DepthLost(segs);
      assert Resolve(true, dir + segs) != AbsResolve(dir + segs);
    }
  }

  lemma {:induction false} AbsoluteAgrees(dir: seq<string>, segs: seq<string>)
    requires Resolved(true, dir) && NothingClimbs(segs)
    ensures Resolve(true, dir + segs) == AbsResolve(dir + segs)
  {
    hide AllRead, Resolve, AbsResolve, Resolved;
    DirectoryRead(dir, segs);
    ReadFaithfully(segs);
    ResolvesRead(dir + segs);
  }

  /** A name in front of the last step is the end of the path. */
  lemma {:induction false} AbsAppends(dir: seq<string>, names: seq<string>)
    requires Named(names) && Names(names)
    ensures AbsResolve(dir + names) == AbsResolve(dir) + names
    decreases |names|
  {
    hide Name, AbsResolve;
    if names == [] {
      assert dir + names == dir;
    } else {
      var front, e := names[..|names| - 1], names[|names| - 1];
      AbsAppends(dir, front);
      AbsNext(dir + front, e);
      assert dir + names == dir + front + [e];
      assert AbsResolve(dir) + front + [e] == AbsResolve(dir) + names;
    }
  }

  /** From n deep, k steps up. */
  lemma {:induction false} Climbed(e: string, n: nat, k: nat)
    requires (e == "a" || e == "b") && k <= n
    ensures AbsResolve(Homes(e, n) + Ups(k)) == Homes(e, n - k)
  {
    hide AbsResolve, Homes;
    if k == 0 {
      HomesResolved(e, n);
      assert Homes(e, n) + Ups(0) == Homes(e, n);
    } else {
      Climbed(e, n, k - 1);
      AbsNext(Homes(e, n) + Ups(k - 1), "..");
      assert Homes(e, n) + Ups(k) == Homes(e, n) + Ups(k - 1) + [".."];
      assert Homes(e, n - k + 1)[..n - k] == Homes(e, n - k);
    }
  }

  lemma {:induction false} ClimbedOut(e: string, n: nat, k: nat, names: seq<string>)
    requires (e == "a" || e == "b") && k <= n && Named(names) && Names(names)
    ensures AbsResolve(Homes(e, n) + (Ups(k) + names)) == Homes(e, n - k) + names
  {
    hide AbsResolve, Homes, Name;
    Climbed(e, n, k);
    AbsAppends(Homes(e, n) + Ups(k), names);
    assert Homes(e, n) + (Ups(k) + names) == Homes(e, n) + Ups(k) + names;
  }

  /** What is seen from deep directories of either name tells steps up and names apart. */
  lemma {:induction false} SeenApart(m: nat, x: seq<string>, n: nat, y: seq<string>)
    requires Homes("a", m) + x == Homes("a", n) + y && Homes("b", m) + x == Homes("b", n) + y
    ensures m == n && x == y
  {
    hide Homes;
    if m == n {
      assert x == (Homes("a", m) + x)[m..] && y == (Homes("a", n) + y)[n..];
    } else {
      SeenAt("a", m, x, n, y);
      SeenAt("b", m, x, n, y);
    }
  }

  /** Where the shallower directory ends, the other path goes on with the directory's name. */
  lemma {:induction false} SeenAt(e: string, m: nat, x: seq<string>, n: nat, y: seq<string>)
    requires Homes(e, m) + x == Homes(e, n) + y && m != n
    ensures var z := if m < n then x else y; z != [] && z[0] == e
  {
    hide Homes;
    var i := if m < n then m else n;
    assert (Homes(e, m) + x)[i] == (Homes(e, n) + y)[i];
  }

  lemma {:induction false} SlicesNamed(es: seq<string>, n: nat)
    requires Named(es) && n <= |es|
    ensures Named(es[n..])
  {
    hide Name;
  }

  /** What the code makes of a relative path has only names that it reads as names. */
  lemma {:induction false} ResultPlain(segs: seq<string>)
    ensures NothingClimbs(Resolve(false, segs))
  {
    hide Climbs;
    if segs != [] {
      ResultPlain(segs[..|segs| - 1]);
      var s := segs[|segs| - 1];
      if s != "" && s != "." {
        TrimTwice(s);
      }
    }
  }

  lemma {:induction false} TrimTwice(s: string)
    ensures !Climbs(Trim(s))
  {
  }

  /**
   Normalising a relative path before it is placed under a directory leads where it should from every directory
   exactly if it gives the steps up and the names that the path means.
   */
  lemma {:induction false} FromEveryIff(segs: seq<string>)
    ensures (forall dir: seq<string> :: Resolved(true, dir) ==>
              Resolve(true, dir + Resolve(false, segs)) == AbsResolve(dir + segs))
            <==> Resolve(false, segs) == StdResolve(segs)
  {
    hide AllRead, Homes, Resolve, AbsResolve, StdResolve, Resolved, NothingClimbs;
    var r := Resolve(false, segs);
    ResultPlain(segs);
    if r == StdResolve(segs) {
      forall dir: seq<string> | Resolved(true, dir) ensures Resolve(true, dir + r) == AbsResolve(dir + segs) {
        AbsoluteAgrees(dir, r);
        PlacedStd(dir, segs);
      }
    }
    if forall dir: seq<string> :: Resolved(true, dir) ==> Resolve(true, dir + r) == AbsResolve(dir + segs) {
      SeenFromHomes(segs);
    }
  }

  lemma {:induction false} SeenFromHomes(segs: seq<string>)
    requires forall dir: seq<string> :: Resolved(true, dir) ==>
               Resolve(true, dir + Resolve(false, segs)) == AbsResolve(dir + segs)
    ensures Resolve(false, segs) == StdResolve(segs)
  {
    hide AllRead, Homes, Resolve, AbsResolve, StdResolve, Resolved, NothingClimbs, Name, LeadingUps, Ups;
    var k, names := Parity(segs);
    var n, lits := StdForm(segs);
    StdNamed(AllRead(segs));
    LeadingOf(k, names);
    SlicesNamed(StdResolve(AllRead(segs)), k);
    StdNamed(segs);
    SlicesNamed(StdResolve(segs), n);
    SeenFrom("a", segs, k % 2, names, n, lits);
    SeenFrom("b", segs, k % 2, names, n, lits);
    SeenApart(n, names, k % 2, lits);
  }

  lemma {:induction false} SeenFrom(e: string, segs: seq<string>, k: nat, names: seq<string>, n: nat, lits: seq<string>)
    requires (e == "a" || e == "b") && Names(names) && Named(names) && Names(lits) && Named(lits)
    requires Resolve(false, segs) == Ups(k) + names && StdResolve(segs) == Ups(n) + lits
    requires forall dir: seq<string> :: Resolved(true, dir) ==>
               Resolve(true, dir + Resolve(false, segs)) == AbsResolve(dir + segs)
    ensures Homes(e, n) + names == Homes(e, k) + lits
  {
    hide Homes, Resolve, AbsResolve, StdResolve, Resolved, NothingClimbs, Name, Ups, Named, Names;
    var dir := Homes(e, k + n);
    HomesResolved(e, k + n);
    ResultPlain(segs);
    AbsoluteAgrees(dir, Resolve(false, segs));
    PlacedStd(dir, segs);
    ClimbedOut(e, k + n, k, names);
    ClimbedOut(e, k + n, n, lits);
  }

  // ---------------------------------------------------------------- every path on the way

  lemma {:induction false} FrontPlain(segs: seq<string>)
    requires segs != []
    ensures NothingClimbs(segs) <==> NothingClimbs(segs[..|segs| - 1]) && !Climbs(segs[|segs| - 1])
  {
    hide Climbs;
  }

  /** After a path resolved as it should be, a name that is read as a step up spoils it. */
  lemma {:induction false} ClimbSpoils(segs: seq<string>)
    requires segs != [] && Climbs(segs[|segs| - 1])
    requires Resolve(false, segs[..|segs| - 1]) == StdResolve(segs[..|segs| - 1])
    ensures Resolve(false, segs) != StdResolve(segs)
  {
    var front, s := StdResolve(segs[..|segs| - 1]), segs[|segs| - 1];
    ClimbsLong(s);
    assert StdResolve(segs) == front + [s];
    assert Resolve(false, segs) == if front == [] then [".."] else front[..|front| - 1];
    assert front == [] ==> StdResolve(segs)[0] == s;
  }

  /** All paths on the way are resolved as they should be if and only if nothing climbs and at most one `..` is left. */
  lemma {:induction false} FrontsIff(segs: seq<string>)
    ensures (forall i :: 0 <= i <= |segs| ==> Resolve(false, segs[..i]) == StdResolve(segs[..i]))
            <==> NothingClimbs(segs) && LeadingUps(StdResolve(segs)) <= 1
  {
    hide Resolve, StdResolve, NothingClimbs, Climbs, LeadingUps;
    assert segs[..|segs|] == segs;
    if segs == [] {
      ResolvesIff(segs) by { NothingInNothing(); }
      NothingInNothing();
    } else {
      var front := segs[..|segs| - 1];
      forall i | 0 <= i <= |front| ensures segs[..i] == front[..i] {
      }
      assert (forall i :: 0 <= i <= |segs| ==> Resolve(false, segs[..i]) == StdResolve(segs[..i]))
        <==> (forall i :: 0 <= i <= |front| ==> Resolve(false, front[..i]) == StdResolve(front[..i]))
             && Resolve(false, segs) == StdResolve(segs);
      FrontsIff(front);
      FrontPlain(segs);
      var n, names := StdForm(segs);
      if NothingClimbs(segs) {
        ResolvesIff(segs);
      } else if NothingClimbs(front) && LeadingUps(StdResolve(front)) <= 1 {
        ResolvesIff(front);
        ClimbSpoils(segs);
      }
    }
  }

  lemma {:induction false} NothingInNothing()
    ensures NothingClimbs([]) && StdResolve([]) == [] && LeadingUps([]) == 0
  {
  }

  /**
   Every path on the way through the segments, normalised before it is placed under a directory, leads where it should
   from every directory if and only if no name is read as a step up and at most one `..` is left at the front.
   */
  lemma {:induction false} MeaningKeptIff(segs: seq<string>)
    ensures (forall i: nat, dir: seq<string> :: i <= |segs| && Resolved(true, dir) ==>
              Resolve(true, dir + Resolve(false, segs[..i])) == AbsResolve(dir + segs[..i]))
            <==> NothingClimbs(segs) && LeadingUps(StdResolve(segs)) <= 1
  {
    hide Resolve, StdResolve, AbsResolve, Resolved, NothingClimbs, LeadingUps;
    forall i: nat | i <= |segs|
      ensures (forall dir: seq<string> :: Resolved(true, dir) ==>
                Resolve(true, dir + Resolve(false, segs[..i])) == AbsResolve(dir + segs[..i]))
              <==> Resolve(false, segs[..i]) == StdResolve(segs[..i])
    {
      FromEveryIff(segs[..i]);
    }
    FrontsIff(segs);
  }

  lemma {:induction false} DotsSegments()
    ensures Segments("a/.../b") == ["a"] + ["..."] + ["b"]
    ensures Segments("/a/.../b") == [""] + ["a"] + ["..."] + ["b"]
  {
    hide Segments;
    OneSegment("");
    OneSegment("a");
    OneSegment("...");
    OneSegment("b");
    SegmentsConcat("...", "b");
    assert "..." + "/" + "b" == ".../b";
    SegmentsConcat("a", ".../b");
    assert "a" + "/" + ".../b" == "a/.../b";
    SegmentsConcat("", "a/.../b");
    assert "" + "/" + "a/.../b" == "/a/.../b";
  }

  lemma {:induction false} DotsTrimmed()
    ensures Trim("...") == ".." && Trim("a") == "a" && Trim("b") == "b"
    ensures Name("...") == "..." && Name("a") == "a" && Name("b") == "b"
  {
  }

  /** A name between two others that the code takes for a step up, after a front that leads nowhere. */
  lemma {:induction false} DotsAfter(absolute: bool, front: seq<string>)
    requires Resolve(absolute, front) == [] && AbsResolve(front) == [] && StdResolve(front) == []
    ensures Resolve(absolute, front + ["a"] + ["..."] + ["b"]) == ["b"]
    ensures AbsResolve(front + ["a"] + ["..."] + ["b"]) == ["a", "...", "b"]
    ensures StdResolve(front + ["a"] + ["..."] + ["b"]) == ["a", "...", "b"]
  {
    hide Resolve, AbsResolve, StdResolve, Name, Trim;
    DotsTrimmed();
    DotsNext(absolute, front, "a");
    DotsNext(absolute, front + ["a"], "...");
    DotsNext(absolute, front + ["a"] + ["..."], "b");
  }

  lemma {:induction false} DotsNext(absolute: bool, done: seq<string>, s: string)
    ensures Resolve(absolute, done + [s]) == Push(Resolve(absolute, done), absolute, s)
    ensures AbsResolve(done + [s]) == AbsPush(AbsResolve(done), s)
    ensures StdResolve(done + [s]) == StdPush(StdResolve(done), s)
  {
    hide Push, AbsPush, StdPush;
    assert (done + [s])[..|done|] == done;
  }

  /** `a/.../b`, absolute or not, loses `a`. */
  lemma {:induction false} DotsClimb()
    ensures Resolve(true, Segments("/a/.../b")) == ["b"] && AbsResolve(Segments("/a/.../b")) == ["a", "...", "b"]
    ensures Resolve(false, Segments("a/.../b")) == ["b"] && StdResolve(Segments("a/.../b")) == ["a", "...", "b"]
  {
    hide Segments, Push, AbsPush, StdPush;
    DotsSegments();
    assert [] + ["a"] == ["a"];
    DotsAfter(false, []);
    assert [""][..0] == [];
    EmptySegment();
    DotsAfter(true, [""]);
  }

  lemma {:induction false} EmptySegment()
    ensures Push([], true, "") == [] && AbsPush([], "") == [] && StdPush([], "") == []
  {
  }

  /** Two mistakes cancel: `.../..` is resolved to nothing, as it should be, though `...` alone is not. */
  lemma {:induction false} TwoMistakes()
    ensures Resolve(false, ["...", ".."]) == StdResolve(["...", ".."]) == []
    ensures Resolve(false, ["..."]) == [".."] && StdResolve(["..."]) == ["..."]
  {
    DotsTrimmed();
    assert ["...", ".."][..1] == ["..."] && ["..."][..0] == [];
    assert Resolve(false, ["..."]) == [".."] && StdResolve(["..."]) == ["..."];
  }
}
