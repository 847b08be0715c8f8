/** The version-drift report: packages present both in the Winry mirror map and
    in the AUR map, not blacklisted, are classified by the external `vercmp`
    comparator, which is a parameter of the model (its version ordering is not
    part of this repository). */
module Compare {
  import opened Common
  import opened Documents

  datatype Kind = Upgrade | Downgrade

  /** One reported package with the two versions printed below it. */
  datatype Entry = Entry(kind: Kind, name: string, winry: string, aur: string)

  /** What `compare` returns (`updates`) and the entries it prints, in order. */
  datatype Report = Report(entries: seq<Entry>, updates: bool)

  /** The comparator's three-way code read as a report line: "-1" (the mirror
      is older) is an upgrade, "1" a downgrade, anything else nothing. */
  function Classify(code: string): (k: Option<Kind>)
    ensures k == Some(Upgrade) <==> code == "-1"
    ensures k == Some(Downgrade) <==> code == "1"
    ensures k == None <==> code != "-1" && code != "1"
  {
    if code == "-1" then Some(Upgrade)
    else if code == "1" then Some(Downgrade)
    else None
  }

  /** `e` is a line the comparison must print: its package is in both maps and
      not blacklisted, it carries both versions, and the comparator, asked with
      the mirror version first and the AUR version second, gives its kind. */
  ghost predicate Reported(winry: map<string, string>, aur: map<string, string>, blacklist: seq<string>,
                           vercmp: (string, string) -> string, e: Entry)
  {
    && e.name in aur && e.name in winry && e.name !in blacklist
    && e.winry == winry[e.name] && e.aur == aur[e.name]
    && Classify(vercmp(e.winry, e.aur)) == Some(e.kind)
  }

  /** Some shared, non-blacklisted package has a version difference. */
  ghost predicate AnyDrift(winry: map<string, string>, aur: map<string, string>, blacklist: seq<string>,
                           vercmp: (string, string) -> string)
  {
    exists p :: p in aur && p in winry && p !in blacklist && Classify(vercmp(winry[p], aur[p])).Some?
  }

  /** The report lists exactly the lines that must be printed, each package
      once, and the result is true exactly when something was printed. */
  ghost predicate Describes(report: Report, winry: map<string, string>, aur: map<string, string>,
                            blacklist: seq<string>, vercmp: (string, string) -> string)
  {
    && (forall e :: e in report.entries <==> Reported(winry, aur, blacklist, vercmp, e))
    && (forall i, j :: 0 <= i < j < |report.entries| ==> report.entries[i].name != report.entries[j].name)
    && (report.updates <==> report.entries != [])
    && (report.updates <==> AnyDrift(winry, aur, blacklist, vercmp))
  }

  /** `compare(winry, aur, blacklist)`. The shared names are visited in an
      order the model leaves open; whatever the order, the printed entries and
      the result are those `Describes` fixes. `blacklist["blacklist"]` is looked
      up at the first visited package, so a document without that list fails
      only when some package is shared. */
  method Compare(winry: map<string, string>, aur: map<string, string>, blacklist: Doc<seq<string>>,
                 vercmp: (string, string) -> string)
    returns (r: Result<Report, LookupError>)
    ensures match Lookup(blacklist, "blacklist")
            case Err(e) => r == if aur.Keys !! winry.Keys then Ok(Report([], false)) else Err(e)
            case Ok(list) => r.Ok? && Describes(r.value, winry, aur, list, vercmp)
  {
    var sharedPacks := aur.Keys * winry.Keys;
    var entries: seq<Entry> := [];
    var results := false;
    var list: seq<string> := [];
    if sharedPacks != {} {
      var found := Lookup(blacklist, "blacklist");
      if found.Err? {
        return Err(found.error);
      }
      list := found.value;
    }
    var rest := sharedPacks;
    while rest != {}
      invariant rest <= sharedPacks
      invariant forall e :: e in entries <==> e.name !in rest && Reported(winry, aur, list, vercmp, e)
      invariant forall i, j :: 0 <= i < j < |entries| ==> entries[i].name != entries[j].name
      invariant results <==> entries != []
      invariant results <==> exists p :: p in sharedPacks - rest && p !in list && Classify(vercmp(winry[p], aur[p])).Some?
      decreases rest
    {
      var pack :| pack in rest;
      if pack !in list {
        var vercmpCode := vercmp(winry[pack], aur[pack]);
        if vercmpCode == "-1" {
          entries := entries + [Entry(Upgrade, pack, winry[pack], aur[pack])];
          results := true;
        } else if vercmpCode == "1" {
          entries := entries + [Entry(Downgrade, pack, winry[pack], aur[pack])];
          results := true;
        }
      }
      rest := rest - {pack};
    }
    assert results <==> exists p :: p in sharedPacks && p !in list && Classify(vercmp(winry[p], aur[p])).Some?;
    if Lookup(blacklist, "blacklist").Ok? {
      var listed := Lookup(blacklist, "blacklist").value;
      if sharedPacks == {} {
        assert !AnyDrift(winry, aur, listed, vercmp) by {
          forall p | p in aur && p in winry ensures p in sharedPacks { }
        }
      }
    }
    r := Ok(Report(entries, results));
  }

  /** Running the comparison twice on the same inputs, whichever orders the two
      runs visit the shared set in, prints the same set of entries and returns
      the same result. */
  method CompareTwice(winry: map<string, string>, aur: map<string, string>, blacklist: Doc<seq<string>>,
                      vercmp: (string, string) -> string)
    returns (first: Result<Report, LookupError>, second: Result<Report, LookupError>)
    ensures first.Ok? <==> second.Ok?
    ensures first.Ok? ==> (set e | e in first.value.entries) == (set e | e in second.value.entries)
    ensures first.Ok? ==> first.value.updates == second.value.updates
  {
    first := Compare(winry, aur, blacklist, vercmp);
    second := Compare(winry, aur, blacklist, vercmp);
  }

  /** A blacklisted package is never reported and its versions, whatever they
      are, change neither the entries nor the result. */
  lemma BlacklistedIgnored(winry: map<string, string>, aur: map<string, string>, blacklist: seq<string>,
                           vercmp: (string, string) -> string, p: string, x: string, y: string)
    requires p in blacklist
    ensures forall e: Entry :: e.name == p ==> !Reported(winry, aur, blacklist, vercmp, e)
    ensures forall e :: Reported(winry[p := x], aur[p := y], blacklist, vercmp, e) <==> Reported(winry, aur, blacklist, vercmp, e)
    ensures AnyDrift(winry[p := x], aur[p := y], blacklist, vercmp) <==> AnyDrift(winry, aur, blacklist, vercmp)
  {
    if AnyDrift(winry, aur, blacklist, vercmp) {
      var q :| q in aur && q in winry && q !in blacklist && Classify(vercmp(winry[q], aur[q])).Some?;
      assert q != p;
      assert q in aur[p := y] && q in winry[p := x];
    }
    if AnyDrift(winry[p := x], aur[p := y], blacklist, vercmp) {
      var w, a := winry[p := x], aur[p := y];
      var q :| q in a && q in w && q !in blacklist && Classify(vercmp(w[q], a[q])).Some?;
      assert q != p;
      assert q in aur && q in winry;
    }
  }

  /** For a shared, non-blacklisted package the comparator's code alone decides
      its line: an upgrade exactly on "-1", a downgrade exactly on "1", and no
      line for any other output. */
  lemma ClassifiedByCode(winry: map<string, string>, aur: map<string, string>, blacklist: seq<string>,
                         vercmp: (string, string) -> string, p: string)
    requires p in aur && p in winry && p !in blacklist
    ensures Reported(winry, aur, blacklist, vercmp, Entry(Upgrade, p, winry[p], aur[p])) <==> vercmp(winry[p], aur[p]) == "-1"
    ensures Reported(winry, aur, blacklist, vercmp, Entry(Downgrade, p, winry[p], aur[p])) <==> vercmp(winry[p], aur[p]) == "1"
    ensures (forall k, v, w :: !Reported(winry, aur, blacklist, vercmp, Entry(k, p, v, w)))
            <==> vercmp(winry[p], aur[p]) != "-1" && vercmp(winry[p], aur[p]) != "1"
  {
    var code := vercmp(winry[p], aur[p]);
    if code == "-1" {
      assert Reported(winry, aur, blacklist, vercmp, Entry(Upgrade, p, winry[p], aur[p]));
    } else if code == "1" {
      assert Reported(winry, aur, blacklist, vercmp, Entry(Downgrade, p, winry[p], aur[p]));
    }
  }

  /** Without a cached AUR listing nothing is reported, whatever the mirror holds. */
  lemma EmptyCacheReportsNothing(winry: map<string, string>, blacklist: seq<string>, vercmp: (string, string) -> string)
    ensures forall e :: !Reported(winry, map[], blacklist, vercmp, e)
    ensures !AnyDrift(winry, map[], blacklist, vercmp)
  {
  }

  /** Mirror {a: 1.0-1, b: 2.0-1} against AUR {a: 1.0-2, b: 2.0-1, c: 3.0-1}:
      with a comparator that orders 1.0-1 before 1.0-2 and finds 2.0-1 equal to
      itself, only `a` is reported, as an upgrade; blacklisting `a` leaves
      nothing to report. */
  lemma UpgradeScenario(vercmp: (string, string) -> string)
    requires vercmp("1.0-1", "1.0-2") == "-1" && vercmp("2.0-1", "2.0-1") == "0"
    ensures forall e :: Reported(map["a" := "1.0-1", "b" := "2.0-1"], map["a" := "1.0-2", "b" := "2.0-1", "c" := "3.0-1"], [], vercmp, e)
                        <==> e == Entry(Upgrade, "a", "1.0-1", "1.0-2")
    ensures !AnyDrift(map["a" := "1.0-1", "b" := "2.0-1"], map["a" := "1.0-2", "b" := "2.0-1", "c" := "3.0-1"], ["a"], vercmp)
  {
    var winry := map["a" := "1.0-1", "b" := "2.0-1"];
    var aur := map["a" := "1.0-2", "b" := "2.0-1", "c" := "3.0-1"];
    assert Reported(winry, aur, [], vercmp, Entry(Upgrade, "a", "1.0-1", "1.0-2"));
    forall e | Reported(winry, aur, [], vercmp, e) ensures e == Entry(Upgrade, "a", "1.0-1", "1.0-2") {
      assert e.name == "a" || e.name == "b";
    }
    forall p | p in aur && p in winry && p !in ["a"] ensures Classify(vercmp(winry[p], aur[p])).None? {
      assert p == "b";
    }
  }

  /** Mirror {a: 2.0-1} against AUR {a: 1.0-1} with a comparator that puts
      2.0-1 after 1.0-1: `a` is reported as a downgrade. */
  lemma DowngradeScenario(vercmp: (string, string) -> string)
    requires vercmp("2.0-1", "1.0-1") == "1"
    ensures forall e :: Reported(map["a" := "2.0-1"], map["a" := "1.0-1"], [], vercmp, e)
                        <==> e == Entry(Downgrade, "a", "2.0-1", "1.0-1")
  {
    assert Reported(map["a" := "2.0-1"], map["a" := "1.0-1"], [], vercmp, Entry(Downgrade, "a", "2.0-1", "1.0-1"));
  }
}
