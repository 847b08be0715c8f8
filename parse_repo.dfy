/** Parsing the mirror's package database: the member names of the tar archive
    (`archive.getnames()`) are reduced to the top-level ones and each is split
    into package name and version by `rsplit("-", 2)`. The download and the
    tar reading are not modelled; the member names are the input. */
module ParseRepo {
  import opened PyStr
  import opened PackageMaps

  /** `[package for package in names if "/" not in package]`. */
  function TopLevel(names: seq<string>): (r: seq<string>)
    ensures |r| <= |names|
  {
    if names == [] then []
    else (if '/' in names[0] then [] else [names[0]]) + TopLevel(names[1..])
  }

  /** The filter keeps exactly the member names without a "/". */
  lemma {:induction false} TopLevelMembers(names: seq<string>)
    ensures forall m :: m in TopLevel(names) <==> m in names && '/' !in m
    decreases |names|
  {
    if names != [] {
      TopLevelMembers(names[1..]);
      assert names == [names[0]] + names[1..];
    }
  }

  /** The filter keeps order and repeats: it works member by member. */
  lemma {:induction false} TopLevelAppend(a: seq<string>, b: seq<string>)
    ensures TopLevel(a + b) == TopLevel(a) + TopLevel(b)
    decreases |a|
  {
    if a == [] {
      assert a + b == b;
    } else {
      var head := if '/' in a[0] then [] else [a[0]];
      assert (a + b)[0] == a[0] && (a + b)[1..] == a[1..] + b;
      TopLevelAppend(a[1..], b);
      assert TopLevel(a + b) == head + (TopLevel(a[1..]) + TopLevel(b));
      assert TopLevel(a) == head + TopLevel(a[1..]);
    }
  }

  /** A single member is kept exactly when it holds no "/". */
  lemma TopLevelOne(m: string)
    ensures TopLevel([m]) == if '/' in m then [] else [m]
  {
    assert [m][1..] == [];
  }

  /** `(member.rsplit("-", 2)[0], "-".join(member.rsplit("-", 2)[1:]))`. */
  function SplitMember(member: string): Pair
  {
    var parts := RSplit(member, '-', 2);
    (parts[0], Join('-', parts[1..]))
  }

  /** With at least two hyphens the version is the text after the
      second-to-last hyphen: name, a hyphen and version give back the member,
      the version holds exactly one hyphen and the name all the others. */
  lemma SplitTwoHyphens(member: string)
    requires Count(member, '-') >= 2
    ensures SplitMember(member).0 + "-" + SplitMember(member).1 == member
    ensures Count(SplitMember(member).1, '-') == 1
    ensures Count(SplitMember(member).0, '-') == Count(member, '-') - 2
  {
    var parts := RSplit(member, '-', 2);
    JoinFirst('-', parts);
    assert parts[1..] == [parts[1], parts[2]];
    JoinPair('-', parts[1], parts[2]);
    CountOneSeparator(parts[1], parts[2], '-');
  }

  lemma JoinPair(sep: char, a: string, b: string)
    ensures Join(sep, [a, b]) == a + [sep] + b
  {
    assert [a, b][..1] == [a];
  }

  lemma CountOneSeparator(a: string, b: string, sep: char)
    requires sep !in a && sep !in b
    ensures Count(a + [sep] + b, sep) == 1
  {
    CountZero(a, sep);
    CountZero(b, sep);
    CountAppend(a + [sep], b, sep);
    CountAppend(a, [sep], sep);
    assert Count([sep], sep) == 1 by { assert [sep][..0] == []; }
  }

  /** Two ways of writing `member` as prefix, hyphen, suffix: the longer
      suffix is the rest of the shorter prefix, a hyphen and the shorter suffix. */
  lemma LongerSuffix(member: string, a: string, b: string, c: string, d: string)
    requires a + "-" + b == member && c + "-" + d == member
    requires |b| > |d|
    ensures b == b[..|b| - |d| - 1] + "-" + d
  {
    assert b == member[|a| + 1..];
    assert d == member[|c| + 1..];
    assert member[|c|] == '-';
    assert b[|b| - |d| - 1] == member[|c|];
    assert b[|b| - |d|..] == d;
  }

  /** A suffix after a hyphen and another hyphen holds at least two hyphens. */
  lemma TwoHyphens(x: string, d: string)
    requires Count(d, '-') >= 1
    ensures Count(x + "-" + d, '-') >= 2
  {
    CountAppend(x + "-", d, '-');
    CountAppend(x, "-", '-');
    assert Count("-", '-') == 1 by { assert "-"[..0] == []; }
  }

  /** The split is the only one with these properties: any name and version
      that give back the member and whose version holds one hyphen are the
      ones `rsplit` produces. */
  lemma SplitTwoHyphensUnique(member: string, name: string, version: string)
    requires Count(member, '-') >= 2
    requires name + "-" + version == member
    requires Count(version, '-') == 1
    ensures SplitMember(member) == (name, version)
  {
    SplitTwoHyphens(member);
    var (n, v) := SplitMember(member);
    if |v| > |version| {
      LongerSuffix(member, n, v, name, version);
      TwoHyphens(v[..|v| - |version| - 1], version);
      assert false;
    } else if |v| < |version| {
      LongerSuffix(member, name, version, n, v);
      TwoHyphens(version[..|version| - |v| - 1], v);
      assert false;
    }
    assert v == member[|n| + 1..] && version == member[|name| + 1..];
    assert n == member[..|n|] && name == member[..|name|];
  }

  /** With one hyphen the split is at that hyphen ("a-b" gives "a" and "b"). */
  lemma SplitOneHyphen(member: string)
    requires Count(member, '-') == 1
    ensures SplitMember(member).0 + "-" + SplitMember(member).1 == member
    ensures '-' !in SplitMember(member).0 && '-' !in SplitMember(member).1
  {
    var parts := RSplit(member, '-', 2);
    JoinFirst('-', parts);
    assert parts[1..] == [parts[1]];
    CountZero(parts[0], '-');
  }

  /** Without a hyphen the whole member is the name and the version is empty. */
  lemma SplitNoHyphen(member: string)
    requires '-' !in member
    ensures SplitMember(member) == (member, "")
  {
    CountZero(member, '-');
  }

  /** Hyphens of a name, a hyphen and a version. */
  lemma CountAround(a: string, b: string)
    ensures Count(a + "-" + b, '-') == Count(a, '-') + 1 + Count(b, '-')
  {
    CountAppend(a + "-", b, '-');
    CountAppend(a, "-", '-');
    assert Count("-", '-') == 1 by { assert "-"[..0] == []; }
  }

  /** Every member splits into a name and a version: with a hyphen, name,
      "-" and version give back the member; without one the member is the name
      and the version is empty. */
  lemma SplitRejoins(member: string)
    ensures '-' !in member ==> SplitMember(member) == (member, "")
    ensures '-' in member ==> SplitMember(member).0 + "-" + SplitMember(member).1 == member
  {
    CountZero(member, '-');
    if Count(member, '-') >= 2 {
      SplitTwoHyphens(member);
    } else if Count(member, '-') == 1 {
      SplitOneHyphen(member);
    } else {
      SplitNoHyphen(member);
    }
  }

  /** A hyphenated package name keeps its hyphens. */
  lemma SplitHyphenatedName()
    ensures SplitMember("foo-bar-2.0-1") == ("foo-bar", "2.0-1")
  {
    CountZero("foo", '-'); CountZero("bar", '-'); CountZero("2.0", '-'); CountZero("1", '-');
    assert "2.0-1" == "2.0" + "-" + "1";
    CountAround("2.0", "1");
    assert "foo-bar" == "foo" + "-" + "bar";
    CountAround("foo", "bar");
    assert "foo-bar-2.0-1" == "foo-bar" + "-" + "2.0-1";
    CountAround("foo-bar", "2.0-1");
    SplitTwoHyphensUnique("foo-bar-2.0-1", "foo-bar", "2.0-1");
  }

  lemma SplitPlainName()
    ensures SplitMember("name-1.2-3") == ("name", "1.2-3")
  {
    CountZero("name", '-'); CountZero("1.2", '-'); CountZero("3", '-');
    assert "1.2-3" == "1.2" + "-" + "3";
    CountAround("1.2", "3");
    assert "name-1.2-3" == "name" + "-" + "1.2-3";
    CountAround("name", "1.2-3");
    SplitTwoHyphensUnique("name-1.2-3", "name", "1.2-3");
  }

  lemma SplitShortMember()
    ensures SplitMember("a-b") == ("a", "b")
  {
    CountZero("a", '-'); CountZero("b", '-');
    assert "a-b" == "a" + "-" + "b";
    CountAround("a", "b");
    SplitOneHyphen("a-b");
    var (n, v) := SplitMember("a-b");
    assert |n| + 1 + |v| == 3;
    assert n == "a-b"[..|n|];
  }

  lemma SplitBareMember()
    ensures SplitMember("vim") == ("vim", "")
  {
    SplitNoHyphen("vim");
  }

  /** The (name, version) pairs of the members, in order. */
  function Entries(members: seq<string>): (pairs: seq<Pair>)
    ensures |pairs| == |members|
    ensures forall k :: 0 <= k < |members| ==> pairs[k] == SplitMember(members[k])
  {
    seq(|members|, k requires 0 <= k < |members| => SplitMember(members[k]))
  }

  /** `names[i]` is a top-level member, and no later top-level member splits
      off the same package name. */
  predicate LastTopLevel(names: seq<string>, i: int)
    requires 0 <= i < |names|
  {
    '/' !in names[i] &&
    forall j :: i < j < |names| && '/' !in names[j] ==> SplitMember(names[j]).0 != SplitMember(names[i]).0
  }

  lemma EntriesSnoc(members: seq<string>, i: int)
    requires 0 <= i < |members|
    ensures Entries(members[..i + 1]) == Entries(members[..i]) + [SplitMember(members[i])]
  {
  }

  lemma EntriesAppend(a: seq<string>, b: seq<string>)
    ensures Entries(a + b) == Entries(a) + Entries(b)
  {
    assert forall k :: 0 <= k < |b| ==> (a + b)[|a| + k] == b[k];
  }

  /** The package names split off the top-level members. */
  lemma TopLevelNames(names: seq<string>)
    ensures Names(Entries(TopLevel(names))) == set m | m in names && '/' !in m :: SplitMember(m).0
  {
    var raw := TopLevel(names);
    var pairs := Entries(raw);
    TopLevelMembers(names);
    forall k | k in Names(pairs) ensures k in set m | m in names && '/' !in m :: SplitMember(m).0 {
      var p :| p in pairs && p.0 == k;
      var idx :| 0 <= idx < |pairs| && pairs[idx] == p;
      assert raw[idx] in raw;
    }
    forall k | k in set m | m in names && '/' !in m :: SplitMember(m).0 ensures k in Names(pairs) {
      var m :| m in names && '/' !in m && SplitMember(m).0 == k;
      var idx :| 0 <= idx < |raw| && raw[idx] == m;
      assert pairs[idx] in pairs;
    }
  }

  /** `parsePackages` once the archive is open: filter the member names, then
      fill the dictionary in member order. Its keys are the names split off the
      top-level members; the value of each is the version of the last top-level
      member with that name, and every value is such a version. */
  method ParsePackages(names: seq<string>) returns (packages: map<string, string>)
    ensures packages.Keys == set m | m in names && '/' !in m :: SplitMember(m).0
    ensures forall i :: 0 <= i < |names| && LastTopLevel(names, i) ==>
              SplitMember(names[i]).0 in packages && packages[SplitMember(names[i]).0] == SplitMember(names[i]).1
    ensures forall k :: k in packages ==>
              exists i :: 0 <= i < |names| && LastTopLevel(names, i) && SplitMember(names[i]) == (k, packages[k])
  {
    var packagesRaw := TopLevel(names);
    packages := map[];
    for i := 0 to |packagesRaw|
      invariant packages == Collected(Entries(packagesRaw[..i]))
    {
      var (name, version) := SplitMember(packagesRaw[i]);
      EntriesSnoc(packagesRaw, i);
      CollectedSnoc(Entries(packagesRaw[..i]), (name, version));
      packages := packages[name := version];
    }
    assert packagesRaw[..|packagesRaw|] == packagesRaw;
    TopLevelNames(names);
    CollectedTopLevel(names);
  }

  /** The last top-level member of a name among all member names is also the
      last one among a prefix holding it. */
  lemma LastInPrefix(names: seq<string>, init: seq<string>, i: int)
    requires |init| <= |names| && init == names[..|init|] && 0 <= i < |init|
    requires LastTopLevel(names, i)
    ensures LastTopLevel(init, i)
  {
    forall j | i < j < |init| && '/' !in init[j]
      ensures SplitMember(init[j]).0 != SplitMember(init[i]).0
    {
      assert init[j] == names[j] && init[i] == names[i];
    }
  }

  /** The dictionary filled from the top-level members of `names`. */
  function Stored(names: seq<string>): map<string, string>
  {
    Collected(Entries(TopLevel(names)))
  }

  /** The last top-level member of each name gives that name's value. */
  predicate KeepsLast(names: seq<string>, stored: map<string, string>)
  {
    forall i :: 0 <= i < |names| && LastTopLevel(names, i) ==>
      SplitMember(names[i]).0 in stored && stored[SplitMember(names[i]).0] == SplitMember(names[i]).1
  }

  /** Every stored value comes from the last top-level member of its name. */
  predicate FromLast(names: seq<string>, stored: map<string, string>)
  {
    forall k :: k in stored ==>
      exists i :: 0 <= i < |names| && LastTopLevel(names, i) && SplitMember(names[i]) == (k, stored[k])
  }

  /** One more member name: a nested one changes nothing, a top-level one
      stores its version under its name. */
  lemma StoredSnoc(init: seq<string>, m: string)
    ensures Stored(init + [m]) == if '/' in m then Stored(init) else Stored(init)[SplitMember(m).0 := SplitMember(m).1]
  {
    var raw := TopLevel(init);
    TopLevelAppend(init, [m]);
    TopLevelOne(m);
    if '/' in m {
      assert TopLevel(init + [m]) == raw + [];
      assert raw + [] == raw;
    } else {
      assert TopLevel(init + [m]) == raw + [m];
      EntriesAppend(raw, [m]);
      assert Entries([m]) == [SplitMember(m)];
      CollectedSnoc(Entries(raw), SplitMember(m));
    }
  }

  /** A member name with a "/" is skipped. */
  lemma SkipNested(init: seq<string>, m: string)
    requires '/' in m
    requires KeepsLast(init, Stored(init)) && FromLast(init, Stored(init))
    ensures KeepsLast(init + [m], Stored(init + [m])) && FromLast(init + [m], Stored(init + [m]))
  {
    StoredSnoc(init, m);
    SkipKeepsLast(init, m, Stored(init));
    SkipFromLast(init, m, Stored(init));
  }

  lemma SkipKeepsLast(init: seq<string>, m: string, stored: map<string, string>)
    requires '/' in m && KeepsLast(init, stored)
    ensures KeepsLast(init + [m], stored)
  {
    var names := init + [m];
    forall i | 0 <= i < |names| && LastTopLevel(names, i)
      ensures SplitMember(names[i]).0 in stored && stored[SplitMember(names[i]).0] == SplitMember(names[i]).1
    {
      assert names[..|init|] == init && i < |init|;
      LastInPrefix(names, init, i);
    }
  }

  lemma SkipFromLast(init: seq<string>, m: string, stored: map<string, string>)
    requires '/' in m && FromLast(init, stored)
    ensures FromLast(init + [m], stored)
  {
    var names := init + [m];
    forall k | k in stored
      ensures exists i :: 0 <= i < |names| && LastTopLevel(names, i) && SplitMember(names[i]) == (k, stored[k])
    {
      var i :| 0 <= i < |init| && LastTopLevel(init, i) && SplitMember(init[i]) == (k, stored[k]);
      assert LastTopLevel(names, i);
    }
  }

  /** A top-level member name stores its version under its name. */
  lemma AddTopLevel(init: seq<string>, m: string)
    requires '/' !in m
    requires KeepsLast(init, Stored(init)) && FromLast(init, Stored(init))
    ensures KeepsLast(init + [m], Stored(init + [m])) && FromLast(init + [m], Stored(init + [m]))
  {
    StoredSnoc(init, m);
    AddKeepsLast(init, m, Stored(init));
    AddFromLast(init, m, Stored(init));
  }

  lemma AddKeepsLast(init: seq<string>, m: string, before: map<string, string>)
    requires '/' !in m && KeepsLast(init, before)
    ensures KeepsLast(init + [m], before[SplitMember(m).0 := SplitMember(m).1])
  {
    var names := init + [m];
    var after := before[SplitMember(m).0 := SplitMember(m).1];
    forall i | 0 <= i < |names| && LastTopLevel(names, i)
      ensures SplitMember(names[i]).0 in after && after[SplitMember(names[i]).0] == SplitMember(names[i]).1
    {
      if i < |init| {
        assert names[..|init|] == init;
        LastInPrefix(names, init, i);
        assert names[|init|] == m && i < |init| < |names|;
        assert SplitMember(m).0 != SplitMember(names[i]).0;
      } else {
        assert names[i] == m;
      }
    }
  }

  lemma AddFromLast(init: seq<string>, m: string, before: map<string, string>)
    requires '/' !in m && FromLast(init, before)
    ensures FromLast(init + [m], before[SplitMember(m).0 := SplitMember(m).1])
  {
    var names := init + [m];
    var (name, version) := SplitMember(m);
    var after := before[name := version];
    forall k | k in after
      ensures exists i :: 0 <= i < |names| && LastTopLevel(names, i) && SplitMember(names[i]) == (k, after[k])
    {
      if k == name {
        assert LastTopLevel(names, |init|);
      } else {
        var i :| 0 <= i < |init| && LastTopLevel(init, i) && SplitMember(init[i]) == (k, before[k]);
        assert LastTopLevel(names, i);
      }
    }
  }

  /** The dictionary filled from the top-level members, read over all member
      names: the last top-level member of a name gives its value, and every
      value comes from such a member. */
  lemma {:induction false} CollectedTopLevel(names: seq<string>)
    ensures KeepsLast(names, Stored(names)) && FromLast(names, Stored(names))
    decreases |names|
  {
    if names != [] {
      var init := names[..|names| - 1];
      var m := names[|names| - 1];
      assert names == init + [m];
      CollectedTopLevel(init);
      if '/' in m {
        SkipNested(init, m);
      } else {
        AddTopLevel(init, m);
      }
    }
  }
}
