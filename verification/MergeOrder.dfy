/** Whether a set of files merges does not depend on their order. */
module MergeOrder {
  import opened Domain
  import opened MergeRules

  lemma {:induction false} FlatAppend<T>(a: seq<FileResult>, b: seq<FileResult>, part: FileResult -> seq<T>)
    ensures Flat(a + b, part) == Flat(a, part) + Flat(b, part)
    decreases |b|
  {
    if b == [] {
      assert a + b == a;
    } else {
      var n := |b| - 1;
      assert (a + b)[..|a + b| - 1] == a + b[..n];
      FlatAppend(a, b[..n], part);
    }
  }

  lemma CancelOne<T>(a: multiset<T>, b: multiset<T>, x: T)
    requires a + multiset{x} == b + multiset{x}
    ensures a == b
  {
    assert (a + multiset{x}) - multiset{x} == a && (b + multiset{x}) - multiset{x} == b;
  }

  lemma {:induction false} FlatPermutes<T>(a: seq<FileResult>, b: seq<FileResult>, part: FileResult -> seq<T>)
    requires multiset(a) == multiset(b)
    ensures multiset(Flat(a, part)) == multiset(Flat(b, part))
    decreases |a|
  {
    if a == [] {
      assert |multiset(b)| == 0;
    } else {
      var last := a[|a| - 1];
      assert a == a[..|a| - 1] + [last];
      assert last in multiset(b);
      var k :| 0 <= k < |b| && b[k] == last;
      var x, y := b[..k], b[k + 1..];
      assert b == x + [last] + y;
      assert multiset(a) == multiset(a[..|a| - 1]) + multiset{last};
      assert multiset(b) == multiset(x) + multiset{last} + multiset(y);
      assert multiset(x + y) == multiset(x) + multiset(y);
      assert multiset(a[..|a| - 1]) == multiset(x + y) by { CancelOne(multiset(a[..|a| - 1]), multiset(x + y), last); }
      FlatPermutes(a[..|a| - 1], x + y, part);
      FlatAppend(x, y, part);
      FlatAppend(x + [last], y, part);
      FlatAppend(x, [last], part);
      assert Flat([last], part) == part(last) by {
        assert [last][..0] == [];
      }
    }
  }

  lemma {:induction false} TwiceCounts<T>(s: seq<T>, i: nat, j: nat)
    requires i < j < |s| && s[i] == s[j]
    ensures multiset(s)[s[i]] >= 2
  {
    var x, y := s[..j], s[j..];
    assert s == x + y && x[i] == s[i] && y[0] == s[j];
    assert s[i] in multiset(x) && s[i] in multiset(y);
  }

  lemma {:induction false} CountsTwice<T>(s: seq<T>, x: T) returns (i: nat, j: nat)
    requires multiset(s)[x] >= 2
    ensures i < j < |s| && s[i] == s[j] == x
  {
    i :| 0 <= i < |s| && s[i] == x;
    assert s == s[..i] + [x] + s[i + 1..];
    var rest := s[..i] + s[i + 1..];
    assert multiset(rest)[x] >= 1;
    var k :| 0 <= k < |rest| && rest[k] == x;
    j := if k < i then k else k + 1;
    assert s[j] == x;
    if j < i {
      i, j := j, i;
    }
  }

  lemma DistinctPermutes<T, K>(a: seq<T>, b: seq<T>, key: T -> K)
    requires multiset(a) == multiset(b) && DistinctBy(a, key)
    ensures DistinctBy(b, key)
  {
    forall i, j | 0 <= i < j < |b| ensures key(b[i]) != key(b[j]) {
      assert b[i] in multiset(a) && b[j] in multiset(a);
      var p :| 0 <= p < |a| && a[p] == b[i];
      var q :| 0 <= q < |a| && a[q] == b[j];
      if b[i] == b[j] {
        TwiceCounts(b, i, j);
        p, q := CountsTwice(a, b[i]);
      }
      var kp, kq := key(a[p]), key(a[q]);
      assert kp != kq by { assert p < q || q < p; }
    }
  }

  /** With real file names there has to be exactly one server section. */
  lemma {:induction false} OneServerSection(files: seq<FileResult>)
    requires forall f :: f in files ==> f.filename != ""
    ensures ServerSource(files).From? && ServerSource(files).filename != "" <==> |Flat(files, ServersOf)| == 1
    ensures ServerSource(files) == From("") <==> |Flat(files, ServersOf)| == 0
    ensures ServerSource(files).Clash? <==> |Flat(files, ServersOf)| > 1
  {
    if files != [] {
      var init := files[..|files| - 1];
      assert forall f :: f in init ==> f in files;
      assert files[|files| - 1] in files;
      OneServerSection(init);
    }
  }

  lemma SameMembers<T>(a: seq<T>, b: seq<T>)
    requires multiset(a) == multiset(b)
    ensures forall x :: x in a <==> x in b
  {
    forall x ensures x in a <==> x in b {
      assert x in a <==> x in multiset(a);
      assert x in b <==> x in multiset(b);
    }
  }

  lemma MergeableOneWay(a: seq<FileResult>, b: seq<FileResult>)
    requires multiset(a) == multiset(b) && (forall f :: f in a ==> f.filename != "") && Mergeable(a)
    ensures Mergeable(b)
  {
    hide Flat, ServerSource;
    SameMembers(a, b);
    FlatPermutes(a, b, MenusOf);
    FlatPermutes(a, b, ClientsOf);
    FlatPermutes(a, b, ServersOf);
    assert |multiset(Flat(a, ServersOf))| == |multiset(Flat(b, ServersOf))|;
    OneServerSection(a);
    OneServerSection(b);
    DistinctPermutes(Flat(a, MenusOf), Flat(b, MenusOf), NameOf);
    DistinctPermutes(Flat(a, ClientsOf), Flat(b, ClientsOf), MacOf);
    SameMembers(Flat(a, MenusOf), Flat(b, MenusOf));
    SameMembers(Flat(a, ClientsOf), Flat(b, ClientsOf));
    RefersPermutes(Flat(a, MenusOf), Flat(b, MenusOf), Flat(a, ClientsOf), Flat(b, ClientsOf));
  }

  lemma RefersPermutes(ma: seq<MenuEntry>, mb: seq<MenuEntry>, ca: seq<Client>, cb: seq<Client>)
    requires Refers(ma, ca) && (forall m :: m in ma <==> m in mb) && (forall c :: c in ca <==> c in cb)
    ensures Refers(mb, cb)
  {
    forall c, e | c in cb && e in c.menu.entries ensures Named(mb, e) {
      assert Named(ma, e);
    }
  }

  /** Renaming files to another reading order changes neither acceptance nor,
      as a collection, the menus and clients. */
  lemma OrderDoesNotMatter(a: seq<FileResult>, b: seq<FileResult>)
    requires multiset(a) == multiset(b) && forall f :: f in a ==> f.filename != ""
    ensures Mergeable(a) <==> Mergeable(b)
    ensures multiset(Merged(a).menus) == multiset(Merged(b).menus)
    ensures multiset(Merged(a).clients) == multiset(Merged(b).clients)
    ensures Mergeable(a) ==> Merged(a).server == Merged(b).server
  {
    hide Mergeable;
    SameMembers(a, b);
    if Mergeable(a) {
      MergeableOneWay(a, b);
      OnlyServer(a, b);
    }
    if Mergeable(b) {
      MergeableOneWay(b, a);
    }
    FlatPermutes(a, b, MenusOf);
    FlatPermutes(a, b, ClientsOf);
  }

  lemma {:induction false} SingleServer(files: seq<FileResult>)
    requires |Flat(files, ServersOf)| <= 1
    ensures LastGiven(files, ServerOf, NO_SERVER) ==
            if Flat(files, ServersOf) == [] then NO_SERVER else Flat(files, ServersOf)[0]
  {
    if files != [] {
      SingleServer(files[..|files| - 1]);
    }
  }

  lemma OnlyServer(a: seq<FileResult>, b: seq<FileResult>)
    requires multiset(a) == multiset(b) && (forall f :: f in a ==> f.filename != "") && Mergeable(a)
    ensures Merged(a).server == Merged(b).server
  {
    hide Flat, ServerSource;
    FlatPermutes(a, b, ServersOf);
    OneServerSection(a);
    var s, t := Flat(a, ServersOf), Flat(b, ServersOf);
    assert |multiset(s)| == |multiset(t)|;
    assert s[0] in multiset(t);
    SingleServer(a);
    SingleServer(b);
  }
}
