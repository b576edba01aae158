/** GithubApi of scripts/build.py: resolving one repository into a module record
    and building the catalog of all of an account's repositories. Every lookup the
    pipeline makes through PyGithub or GraphQL is answered in the Repository value. */
module GithubApi {
  import opened Wrappers
  import ModuleProp
  import GraphQL

  /** A repository of the account, with the answers to every lookup made about it. */
  datatype Repository = Repository(
    ownerLogin: string,
    name: string,
    sshUrl: string,
    cloneUrl: string,
    htmlUrl: string,
    hasIssues: bool,
    // decoded text of `module.prop`; None when the file is not found
    moduleProp: Option<string>,
    // download URL of `changelog.md`; None when the file is not found
    changelog: Option<string>,
    // SPDX id of the detected license; None when the repository has none
    license: Option<string>,
    // answers to the `fundingLinks` and `homepageUrl` queries; None when the request failed
    funding: Option<GraphQL.Response<GraphQL.FundingNode>>,
    homepage: Option<GraphQL.Response<GraphQL.HomepageNode>>)

  /** How a module is distributed. */
  datatype Kind = Git | UpdateJson {
    /** The `kind` string written to the catalog. */
    function Name(): (name: string)
      ensures name == "git" <==> Git?
      ensures name == "update-json" <==> UpdateJson?
    {
      match this
      case Git => "git"
      case UpdateJson => "update-json"
    }
  }

  /** The `metadata` object of a module record; "" stands for an absent value. */
  datatype Metadata = Metadata(license: string, homepage: string, source: string, donate: string, support: string)

  /** One entry of the catalog's `modules` list. */
  datatype ModuleRecord = ModuleRecord(id: string, kind: Kind, provider: string, changelog: string, metadata: Metadata)

  /** The exception that escapes generate_module: a descriptor without the key. */
  datatype Failure = KeyError(key: string)

  const NoAssertion := "NOASSERTION"

  /** GithubApi.get_license: the SPDX id, with the sentinel NOASSERTION and a
      missing license both turned into "". */
  function GetLicense(license: Option<string>): (spdxId: string)
    ensures spdxId != NoAssertion
    ensures spdxId == "" <==> license in {None, Some(NoAssertion), Some("")}
    ensures spdxId != "" ==> license == Some(spdxId)
  {
    match license
    case None => ""
    case Some(id) => if id == NoAssertion then "" else id
  }

  /** GithubApi.get_changelog: the download URL of `changelog.md`, "" when absent. */
  function GetChangelog(changelog: Option<string>): (url: string)
    ensures changelog.None? ==> url == ""
    ensures changelog.Some? ==> url == changelog.value
  {
    changelog.GetOr("")
  }

  /** The parsed `module.prop` of a repository. */
  function PropsOf(repo: Repository): Option<map<string, string>> {
    ModuleProp.Descriptor(repo.moduleProp)
  }

  /** `module_prop.get("updateJson")` is truthy: present and not empty. */
  predicate RequestsUpdateJson(props: map<string, string>) {
    "updateJson" in props && props["updateJson"] != ""
  }

  /** GithubApi.generate_module: no record when the repository has no `module.prop`,
      KeyError when its descriptor has no `id`, otherwise the normalised record. */
  function GenerateModule(repo: Repository): (r: Result<Option<ModuleRecord>, Failure>)
    ensures r == Ok(None) <==> repo.moduleProp.None?
    ensures r.Err? <==> repo.moduleProp.Some? && "id" !in PropsOf(repo).value
    ensures r.Err? ==> r.error == KeyError("id")
    ensures r.Ok? && r.value.Some? ==>
      var props := PropsOf(repo).value;
      var m := r.value.value;
      && m.id == props["id"]
      && (m.kind == UpdateJson <==> RequestsUpdateJson(props))
      && (m.kind == UpdateJson ==> m.provider == props["updateJson"] && m.changelog == "")
      && (m.kind == Git ==> m.provider == repo.sshUrl && m.changelog == GetChangelog(repo.changelog))
      && m.metadata.license != NoAssertion
      && m.metadata.license == GetLicense(repo.license)
      && (m.metadata.support != "" <==> repo.hasIssues)
      && (repo.hasIssues ==> m.metadata.support == repo.htmlUrl + "/issues")
      && m.metadata.source == repo.cloneUrl
      && m.metadata.donate == (var links := GraphQL.SponsorUrls(repo.funding);
                               if links == [] then "" else links[0])
      && m.metadata.homepage == GraphQL.GetHomepageUrl(repo.homepage).GetOr("")
  {
    match PropsOf(repo)
    case None => Ok(None)
    case Some(props) =>
      var kind := if RequestsUpdateJson(props) then UpdateJson else Git;
      var provider := if kind == UpdateJson then props["updateJson"] else repo.sshUrl;
      var changelog := if kind == UpdateJson then "" else GetChangelog(repo.changelog);
      var issues := if repo.hasIssues then repo.htmlUrl + "/issues" else "";
      var donateUrls := GraphQL.SponsorUrls(repo.funding);
      var donate := if |donateUrls| == 0 then "" else donateUrls[0];
      var homepage := GraphQL.GetHomepageUrl(repo.homepage).GetOr("");
      if "id" !in props then Err(KeyError("id"))
      else
        Ok(Some(ModuleRecord(props["id"], kind, provider, changelog,
                             Metadata(GetLicense(repo.license), homepage, repo.cloneUrl, donate, issues))))
  }

  /** The repositories that have a `module.prop`, in enumeration order. */
  function WithDescriptor(repos: seq<Repository>): (kept: seq<Repository>)
    ensures |kept| <= |repos|
    ensures forall k :: 0 <= k < |kept| ==> kept[k].moduleProp.Some?
    ensures forall r :: r in kept <==> r in repos && r.moduleProp.Some?
  {
    if repos == [] then []
    else
      var init := WithDescriptor(repos[..|repos| - 1]);
      var last := repos[|repos| - 1];
      if last.moduleProp.Some? then init + [last] else init
  }

  /** The `modules` list generate_modules builds, or the KeyError that escapes it
      at the first descriptor without an `id`. */
  function Catalog(repos: seq<Repository>): (r: Result<seq<ModuleRecord>, Failure>)
    ensures r.Ok? ==> |r.value| <= |repos|
    ensures r.Err? ==> r.error == KeyError("id")
  {
    if repos == [] then Ok([])
    else
      match Catalog(repos[..|repos| - 1])
      case Err(e) => Err(e)
      case Ok(modules) =>
        match GenerateModule(repos[|repos| - 1])
        case Err(e) => Err(e)
        case Ok(None) => Ok(modules)
        case Ok(Some(m)) => Ok(modules + [m])
  }

  /** The catalog fails exactly when some repository's descriptor has no `id`. */
  lemma {:induction false} CatalogFailsIffMissingId(repos: seq<Repository>)
    ensures Catalog(repos).Err? <==>
      exists i :: 0 <= i < |repos| && repos[i].moduleProp.Some? && "id" !in PropsOf(repos[i]).value
    ensures Catalog(repos).Err? ==> Catalog(repos).error == KeyError("id")
  {
    if repos != [] {
      var init := repos[..|repos| - 1];
      CatalogFailsIffMissingId(init);
      if exists i :: 0 <= i < |init| && init[i].moduleProp.Some? && "id" !in PropsOf(init[i]).value {
        var i :| 0 <= i < |init| && init[i].moduleProp.Some? && "id" !in PropsOf(init[i]).value;
        assert repos[i] == init[i];
      }
      if exists i :: 0 <= i < |repos| && repos[i].moduleProp.Some? && "id" !in PropsOf(repos[i]).value {
        var i :| 0 <= i < |repos| && repos[i].moduleProp.Some? && "id" !in PropsOf(repos[i]).value;
        if i < |init| {
          assert init[i] == repos[i];
        }
      }
    }
  }

  /** A successful catalog holds one record per repository with a `module.prop`,
      in enumeration order, each the record generate_module makes of it. */
  lemma {:induction false} CatalogFollowsDescriptors(repos: seq<Repository>)
    requires Catalog(repos).Ok?
    ensures |Catalog(repos).value| == |WithDescriptor(repos)|
    ensures forall k :: 0 <= k < |Catalog(repos).value| ==>
      GenerateModule(WithDescriptor(repos)[k]) == Ok(Some(Catalog(repos).value[k]))
  {
    if repos != [] {
      var init := repos[..|repos| - 1];
      CatalogFollowsDescriptors(init);
    }
  }

  /** Adding a repository without `module.prop` anywhere in the enumeration changes
      nothing in the catalog. */
  lemma {:induction false} CatalogSkipsNonModule(before: seq<Repository>, repo: Repository, after: seq<Repository>)
    requires repo.moduleProp.None?
    ensures Catalog(before + [repo] + after) == Catalog(before + after)
  {
    if after == [] {
      assert (before + [repo] + after)[..|before| + 1 - 1] == before;
      assert before + after == before;
    } else {
      var a := after[..|after| - 1];
      CatalogSkipsNonModule(before, repo, a);
      assert (before + [repo] + after)[..|before + [repo] + after| - 1] == before + [repo] + a;
      assert (before + after)[..|before + after| - 1] == before + a;
    }
  }

  /** Once a prefix of the enumeration has failed, the whole catalog fails with it. */
  lemma {:induction false} CatalogFailureIsFinal(repos: seq<Repository>, n: nat)
    requires n <= |repos| && Catalog(repos[..n]).Err?
    ensures Catalog(repos) == Catalog(repos[..n])
    decreases |repos| - n
  {
    if n == |repos| {
      assert repos[..n] == repos;
    } else {
      assert repos[..n + 1][..n] == repos[..n];
      CatalogFailureIsFinal(repos, n + 1);
    }
  }

  /** Two repositories, the first with the descriptor `id=<id>` and a `changelog.md`,
      the second without `module.prop`: the catalog is the one git-kind record of
      the first, with that id and the changelog's download URL. */
  lemma TwoRepositoryCatalog(foo: Repository, plain: Repository, id: string)
    requires ModuleProp.NoLineBreak(id)
    requires foo.moduleProp == Some("id=" + id + "\n") && foo.changelog.Some?
    requires plain.moduleProp.None?
    ensures Catalog([foo, plain]).Ok? && |Catalog([foo, plain]).value| == 1
    ensures var m := Catalog([foo, plain]).value[0];
      m.id == id && m.kind == Git && m.provider == foo.sshUrl && m.changelog == foo.changelog.value
  {
    assert PropsOf(foo) == Some(map["id" := id]) by {
      ModuleProp.IdLineDescriptor(id);
    }
    assert !RequestsUpdateJson(map["id" := id]);
    var r := GenerateModule(foo);
    assert r.Ok? && r.value.Some?;
    var m := r.value.value;
    assert Catalog([foo]) == Ok([m]) by {
      var one := [foo];
      assert one[..|one| - 1] == [];
      assert Catalog(one[..|one| - 1]) == Ok([]);
      assert GenerateModule(one[|one| - 1]) == Ok(Some(m));
      assert [] + [m] == [m];
    }
    assert Catalog([foo, plain]) == Ok([m]) by {
      assert [foo, plain][..1] == [foo];
      assert GenerateModule(plain) == Ok(None);
    }
  }

  /** The value of `_config["modules"]`: the initial empty object, then the list. */
  datatype ModulesEntry = Placeholder | Modules(records: seq<ModuleRecord>)

  /** The `_config` envelope; `log` and `repository` stay empty objects. */
  datatype Config = Config(log: map<string, string>, repository: map<string, string>, modules: ModulesEntry)

  /** The catalog builder. The authenticated clients it holds are not modelled. */
  class Api {
    var config: Config

    constructor ()
      ensures config == Config(map[], map[], Placeholder)
    {
      config := Config(map[], map[], Placeholder);
    }

    /** GithubApi.generate_modules over the account's repositories in enumeration
        order. A KeyError aborts the walk and leaves `_config` as it was. */
    method GenerateModules(repos: seq<Repository>) returns (outcome: Outcome<Failure>)
      modifies this
      ensures outcome.Pass? <==> Catalog(repos).Ok?
      ensures outcome.Pass? ==> config == old(config).(modules := Modules(Catalog(repos).value))
      ensures outcome.Fail? ==> config == old(config) && outcome.error == Catalog(repos).error
    {
      var modules: seq<ModuleRecord> := [];
      for n := 0 to |repos|
        invariant Catalog(repos[..n]) == Ok(modules)
      {
        assert repos[..n + 1][..n] == repos[..n];
        var resolved := GenerateModule(repos[n]);
        if resolved.Err? {
          CatalogFailureIsFinal(repos, n + 1);
          return Fail(resolved.error);
        }
        if resolved.value.Some? {
          modules := modules + [resolved.value.value];
        }
      }
      assert repos[..|repos|] == repos;
      config := config.(modules := Modules(modules));
      return Pass;
    }
  }
}
