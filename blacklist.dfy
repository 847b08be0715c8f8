/** The blacklist store: a YAML document whose "blacklist" key holds the list
    of package names the comparison skips. It is read from the local file under
    the XDG configuration directory, else from the global one, and every change
    is written to the local file. The files are a map from path to state; a
    successful change returns the new map. */
module Blacklist {
  import opened Common
  import opened Documents
  import opened Configure

  type BlacklistDoc = Doc<seq<string>>
  type BlacklistFile = File<seq<string>>

  function LocalBlacklistPath(env: map<string, string>, home: string): string
  {
    LoadXdgVars(env, home).config + "/augur/blacklist.yaml"
  }

  const GlobalBlacklistPath := "/etc/augur/blacklist.yaml"

  /** `{"blacklist": []}`. */
  const EmptyBlacklist: BlacklistDoc := Dict(map["blacklist" := []])

  /** The document `readBlacklist` settles on, given the two files: a local
      document that loads truthy; otherwise the global document when the
      global file is readable; with no global file, the empty blacklist; with
      a global file that cannot be read, whatever the local attempt left (its
      falsy document, or an empty mapping). */
  function BlacklistSource(local: BlacklistFile, global: BlacklistFile): (d: BlacklistDoc)
    ensures local.Readable? && Truthy(local.doc) ==> d == local.doc
    ensures !(local.Readable? && Truthy(local.doc)) && global.Readable? ==> d == global.doc
    ensures !(local.Readable? && Truthy(local.doc)) && global.Absent? ==> d == EmptyBlacklist
    ensures !(local.Readable? && Truthy(local.doc)) && global.Unreadable? ==>
              d == if local.Readable? then local.doc else Dict(map[])
  {
    if local.Readable? && Truthy(local.doc) then local.doc
    else match global
      case Readable(doc) => doc
      case Absent => EmptyBlacklist
      case Unreadable => if local.Readable? then local.doc else Dict(map[])
  }

  function LocalFile(env: map<string, string>, home: string, files: map<string, BlacklistFile>): BlacklistFile
  {
    FileAt(files, LocalBlacklistPath(env, home))
  }

  function GlobalFile(files: map<string, BlacklistFile>): BlacklistFile
  {
    FileAt(files, GlobalBlacklistPath)
  }

  /** `blacklistPacks["blacklist"] = []` on `None`. */
  datatype ReadError = NoneDoesNotSupportItemAssignment

  /** `readBlacklist()` as written. When the local file loads as `None` (it is
      empty) and there is no global file, the final assignment indexes `None`
      and raises; every other case agrees with `BlacklistSource`. */
  method ReadBlacklistAsWritten(env: map<string, string>, home: string, files: map<string, BlacklistFile>)
    returns (r: Result<BlacklistDoc, ReadError>)
    ensures var local, global := LocalFile(env, home, files), GlobalFile(files);
      r == if local == Readable(Null) && global.Absent? then Err(NoneDoesNotSupportItemAssignment)
           else Ok(BlacklistSource(local, global))
  {
    var configPath := LoadXdgVars(env, home).config;
    var blacklistPacks: BlacklistDoc := Dict(map[]);
    var local := FileAt(files, configPath + "/augur/blacklist.yaml");
    if !local.Absent? {
      if local.Readable? {
        blacklistPacks := local.doc;
      }
    }
    var global := FileAt(files, GlobalBlacklistPath);
    if !global.Absent? && !Truthy(blacklistPacks) {
      if global.Readable? {
        blacklistPacks := global.doc;
      }
    } else if global.Absent? && !Truthy(blacklistPacks) {
      if blacklistPacks.Null? {
        return Err(NoneDoesNotSupportItemAssignment);
      }
      assert blacklistPacks.entries == map[];
      blacklistPacks := Dict(blacklistPacks.entries["blacklist" := []]);
    }
    r := Ok(blacklistPacks);
  }

  /** `readBlacklist()` with the empty blacklist used whenever neither file
      supplied a list, as the message printed on that path announces. */
  method ReadBlacklist(env: map<string, string>, home: string, files: map<string, BlacklistFile>)
    returns (blacklistPacks: BlacklistDoc)
    ensures blacklistPacks == BlacklistSource(LocalFile(env, home, files), GlobalFile(files))
  {
    var configPath := LoadXdgVars(env, home).config;
    blacklistPacks := Dict(map[]);
    var local := FileAt(files, configPath + "/augur/blacklist.yaml");
    if !local.Absent? {
      if local.Readable? {
        blacklistPacks := local.doc;
      }
    }
    var global := FileAt(files, GlobalBlacklistPath);
    if !global.Absent? && !Truthy(blacklistPacks) {
      if global.Readable? {
        blacklistPacks := global.doc;
      }
    } else if global.Absent? && !Truthy(blacklistPacks) {
      blacklistPacks := EmptyBlacklist;
    }
  }

  /** An empty local file and no global file: the code as written raises,
      the corrected reading gives the empty blacklist. */
  method EmptyLocalBlacklist(env: map<string, string>, home: string)
    returns (asWritten: Result<BlacklistDoc, ReadError>, corrected: BlacklistDoc)
    requires LocalBlacklistPath(env, home) != GlobalBlacklistPath
    ensures asWritten == Err(NoneDoesNotSupportItemAssignment)
    ensures corrected == EmptyBlacklist
  {
    var files := map[LocalBlacklistPath(env, home) := Readable(Null)];
    asWritten := ReadBlacklistAsWritten(env, home, files);
    corrected := ReadBlacklist(env, home, files);
  }

  /** Index of the first occurrence of `x` in `s`. */
  function FirstIndex(s: seq<string>, x: string): (i: nat)
    requires x in s
    ensures i < |s| && s[i] == x && x !in s[..i]
  {
    if s[0] == x then 0
    else
      var j := FirstIndex(s[1..], x);
      assert s[..j + 1] == [s[0]] + s[1..][..j];
      j + 1
  }

  /** `s.remove(x)`: the first occurrence of `x` goes, the other elements stay
      in their order. */
  function RemoveFirst(s: seq<string>, x: string): (r: seq<string>)
    requires x in s
    ensures r == s[..FirstIndex(s, x)] + s[FirstIndex(s, x) + 1..]
  {
    if s[0] == x then s[1..]
    else
      var j := FirstIndex(s[1..], x);
      assert [s[0]] + s[1..][..j] == s[..j + 1];
      assert s[1..][j + 1..] == s[j + 2..];
      [s[0]] + RemoveFirst(s[1..], x)
  }

  /** Exactly one `x` is gone. */
  lemma RemoveFirstCount(s: seq<string>, x: string)
    requires x in s
    ensures multiset(RemoveFirst(s, x)) + multiset([x]) == multiset(s)
  {
    var i := FirstIndex(s, x);
    assert s == s[..i] + [x] + s[i + 1..];
  }

  /** Appending an absent `x` and removing `x` again gives back the list. */
  lemma {:induction false} RemoveAppended(s: seq<string>, x: string)
    requires x !in s
    ensures RemoveFirst(s + [x], x) == s
  {
    if s != [] {
      assert (s + [x])[1..] == s[1..] + [x];
      RemoveAppended(s[1..], x);
    }
  }

  /** Why a blacklist change ends with `exit(1)` or an exception. */
  datatype StoreError = ListMissing(cause: LookupError) | AlreadyBlacklisted | NotBlacklisted | CannotWrite

  /** `addBlacklist(package)`: a package already listed is refused;
      otherwise the whole document, with `package` appended to its list, is
      written to the local file, whichever file it was read from. Nothing else
      changes. */
  method AddBlacklist(env: map<string, string>, home: string, files: map<string, BlacklistFile>,
                      package: string, writable: bool)
    returns (r: Result<map<string, BlacklistFile>, StoreError>)
    ensures var doc := BlacklistSource(LocalFile(env, home, files), GlobalFile(files));
      match Lookup(doc, "blacklist")
      case Err(e) => r == Err(ListMissing(e))
      case Ok(names) =>
        if package in names then r == Err(AlreadyBlacklisted)
        else if !writable then r == Err(CannotWrite)
        else r == Ok(files[LocalBlacklistPath(env, home) := Readable(Dict(doc.entries["blacklist" := names + [package]]))])
  {
    var configPath := LoadXdgVars(env, home).config;
    var blacklistPacks := ReadBlacklist(env, home, files);
    var listed := Lookup(blacklistPacks, "blacklist");
    if listed.Err? {
      return Err(ListMissing(listed.error));
    }
    if package in listed.value {
      return Err(AlreadyBlacklisted);
    }
    if !writable {
      return Err(CannotWrite);
    }
    var names := listed.value + [package];
    blacklistPacks := Dict(blacklistPacks.entries["blacklist" := names]);
    r := Ok(files[configPath + "/augur/blacklist.yaml" := Readable(blacklistPacks)]);
  }

  /** The document `whitelist` writes back: `package` removed from the list. */
  function WhitelistedDoc(doc: BlacklistDoc, names: seq<string>, package: string): BlacklistDoc
    requires doc.Dict? && package in names
  {
    Dict(doc.entries["blacklist" := RemoveFirst(names, package)])
  }

  /** `whitelist(package)`: a package not listed is refused; otherwise the
      whole document, with the first occurrence of `package` removed from its
      list, is written to the local file. Nothing else changes. */
  method Whitelist(env: map<string, string>, home: string, files: map<string, BlacklistFile>,
                   package: string, writable: bool)
    returns (r: Result<map<string, BlacklistFile>, StoreError>)
    ensures var doc := BlacklistSource(LocalFile(env, home, files), GlobalFile(files));
      match Lookup(doc, "blacklist")
      case Err(e) => r == Err(ListMissing(e))
      case Ok(names) =>
        if package !in names then r == Err(NotBlacklisted)
        else if !writable then r == Err(CannotWrite)
        else r == Ok(files[LocalBlacklistPath(env, home) := Readable(WhitelistedDoc(doc, names, package))])
  {
    var configPath := LoadXdgVars(env, home).config;
    var blacklistPacks := ReadBlacklist(env, home, files);
    var listed := Lookup(blacklistPacks, "blacklist");
    if listed.Err? {
      return Err(ListMissing(listed.error));
    }
    if package !in listed.value {
      return Err(NotBlacklisted);
    }
    if !writable {
      return Err(CannotWrite);
    }
    var names := RemoveFirst(listed.value, package);
    blacklistPacks := Dict(blacklistPacks.entries["blacklist" := names]);
    r := Ok(files[configPath + "/augur/blacklist.yaml" := Readable(blacklistPacks)]);
  }

  /** Blacklisting an absent package and whitelisting it again leaves the
      local file holding the document that was read, list unchanged; when
      that document came from the local file, no file changes at all. */
  method BlacklistThenWhitelist(env: map<string, string>, home: string, files: map<string, BlacklistFile>,
                                package: string)
    returns (added: Result<map<string, BlacklistFile>, StoreError>, restored: Result<map<string, BlacklistFile>, StoreError>)
    requires Lookup(BlacklistSource(LocalFile(env, home, files), GlobalFile(files)), "blacklist").Ok?
    requires package !in Lookup(BlacklistSource(LocalFile(env, home, files), GlobalFile(files)), "blacklist").value
    ensures added.Ok? && restored.Ok?
    ensures restored.value == files[LocalBlacklistPath(env, home) := Readable(BlacklistSource(LocalFile(env, home, files), GlobalFile(files)))]
    ensures LocalFile(env, home, files) == Readable(BlacklistSource(LocalFile(env, home, files), GlobalFile(files))) ==>
              restored.value == files
  {
    var doc := BlacklistSource(LocalFile(env, home, files), GlobalFile(files));
    var names := doc.entries["blacklist"];
    var path := LocalBlacklistPath(env, home);
    var written := Dict(doc.entries["blacklist" := names + [package]]);
    added := AddBlacklist(env, home, files, package, true);
    var afterAdd := files[path := Readable(written)];
    assert "blacklist" in written.entries;
    ReadBackWritten(env, home, files, written);
    restored := Whitelist(env, home, afterAdd, package, true);
    RestoredList(doc.entries, package);
    assert WhitelistedDoc(written, names + [package], package) == doc;
    assert restored == Ok(afterAdd[path := Readable(doc)]);
    assert afterAdd[path := Readable(doc)] == files[path := Readable(doc)];
  }

  /** A truthy document just written to the local file is what the next read returns. */
  lemma ReadBackWritten(env: map<string, string>, home: string, files: map<string, BlacklistFile>, d: BlacklistDoc)
    requires Truthy(d)
    ensures var after := files[LocalBlacklistPath(env, home) := Readable(d)];
      BlacklistSource(LocalFile(env, home, after), GlobalFile(after)) == d
  {
  }

  /** Appending an absent package to the list and removing it again restores the document. */
  lemma RestoredList(entries: map<string, seq<string>>, package: string)
    requires "blacklist" in entries && package !in entries["blacklist"]
    ensures var names := entries["blacklist"];
      entries["blacklist" := names + [package]]["blacklist" := RemoveFirst(names + [package], package)] == entries
  {
    RemoveAppended(entries["blacklist"], package);
  }
}
