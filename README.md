# Magisk module catalog builder: a Dafny model

This project models the module-catalog pipeline of `scripts/build.py`. The pipeline
walks the GitHub repositories of one account. It reads each repository's
`module.prop` descriptor, and for every repository that has one it builds a
module record: `id`, `kind` (`git` or `update-json`), `provider`, `changelog`
and the `metadata` object (`license`, `homepage`, `source`, `donate`, `support`).
The records are collected, in enumeration order, into the `modules` entry of the
`_config` envelope.

The network is not modelled. A `GithubApi.Repository` value holds the answers to
every lookup made about one repository:
- the REST fields `ssh_url`, `clone_url`, `html_url`, `has_issues`, `owner.login` and `name`;
- the text of `module.prop`, or None when the file is not found;
- the download URL of `changelog.md`, or None;
- the SPDX id of the license, or None when there is no license;
- the decoded answers to the two GraphQL queries, or None when the HTTP response was not ok.

A `PyGithub` `UnknownObjectException` is a None in these fields.

Modules:
- `Wrappers` (wrappers.dfy): `Option`, `Result` and `Outcome`.
- `ModuleProp` (module_prop.dfy): the descriptor parser. `SplitLines` models
  Python's `str.splitlines`: every line-boundary character it recognises counts, `"\r\n"` is one
  boundary, and a trailing boundary opens no empty line. `SplitAtFirst` models
  `line.split("=", 1)`. `PropMap` is the dictionary the loop builds, and `GetModuleProp` is that loop.
- `GraphQL` (graphql.dfy): extracting `data.repository` from an answer
  (`QueryRepository`), the funding-link rewrite (`GetSponsorUrl`, specified by
  `SponsorUrls`), and the homepage URL (`GetHomepageUrl`).
- `GithubApi` (github_api.dfy): license and changelog normalisation, the resolver
  `GenerateModule`, the catalog `Catalog` and the class `Api`. Its field `config` is
  `_config`, and its method `GenerateModules` is the loop of `generate_modules`.

A descriptor without an `id` key is an explicit failure. In the source, reading
`module_prop["id"]` raises `KeyError` at the `print` call (scripts/build.py:146),
so the dict literal after it is never reached. Nothing in `generate_modules`
catches the error, so the whole run stops and `_config` keeps its earlier value.
The model does the same:
- `GenerateModule` returns `Err(KeyError("id"))`;
- `Catalog` fails at the first such repository;
- `Api.GenerateModules` returns `Fail` and leaves `config` unchanged.

`_config["modules"]` starts as an empty object (`{}`, scripts/build.py:108) and
becomes a list only when `generate_modules` overwrites it.
`ModulesEntry.Placeholder` models that initial value.

## Model

| member | source | states |
|---|---|---|
| `ModuleProp.GetModuleProp` | scripts/build.py:197-211 | None exactly when `module.prop` is absent; otherwise the dictionary built from the text's lines in order (`Descriptor`) |
| `ModuleProp.SplitLines` | scripts/build.py:202 | no line of the result contains a line-boundary character |
| `ModuleProp.SplitLinesStep` | scripts/build.py:202 | the first line ends at the first boundary; `"\r\n"` is a single boundary, and so is a lone `"\r"` or any other boundary character |
| `ModuleProp.SplitJoinRoundTrip` | scripts/build.py:202 | splitting lines joined with one kind of boundary (`"\n"`, `"\r\n"`, `"\r"`, …) gives back the same lines (none holding a boundary, the last one non-empty) |
| `ModuleProp.SplitTerminatedRoundTrip` | scripts/build.py:202 | splitting a text whose every line ends with a boundary gives back exactly those lines: the final boundary opens no empty line, and empty lines in between are kept |
| `ModuleProp.SplitAtFirst` | scripts/build.py:205 | the key holds no `=`, and `key + "=" + value` is the original line (nothing trimmed; the value may hold `=`) |
| `ModuleProp.SplitAtFirstUnique` | scripts/build.py:205 | any split of a line into a key without `=`, the `=` and a value is the one `SplitAtFirst` returns |
| `ModuleProp.PropMap` | scripts/build.py:199-206 | no key of the parsed dictionary contains `=` |
| `ModuleProp.PropMapKeys` | scripts/build.py:202-206 | a key is in the dictionary if and only if some line containing `=` declares it |
| `ModuleProp.PropMapLastWins` | scripts/build.py:205-206 | a key's value comes from the last line that declares it |
| `ModuleProp.PropMapEntriesAreLines` | scripts/build.py:202-206 | every entry `key`, `value` is some line of the text read back as `key + "=" + value` |
| `ModuleProp.Descriptor` | scripts/build.py:198-211 | None exactly when `module.prop` is absent; otherwise a dictionary none of whose keys contains `=` |
| `ModuleProp.IdLineDescriptor` | scripts/build.py:201-206 | the one-line descriptor `id=<id>` (ending in a newline) parses to the dictionary holding just that `id` |
| `ModuleProp.PropMapIgnoresLine` | scripts/build.py:203-204 | a line without `=`, wherever it stands, adds no key and changes no value |
| `GraphQL.QueryRepository` | scripts/build.py:42-47 | None exactly when the response, its `data` or its `repository` is missing; otherwise the `repository` object |
| `GraphQL.LastSegment` | scripts/build.py:63 | the result is the longest suffix of the URL that holds no `/` (`split("/")[-1]`) |
| `GraphQL.LastSegmentOfPath` | scripts/build.py:63 | the last segment of `prefix/segment` is `segment`, and a URL without `/` is its own last segment |
| `GraphQL.SponsorLinks` | scripts/build.py:58-66 | one link per funding entry |
| `GraphQL.SponsorUrls` | scripts/build.py:49-68 | no links when the repository is missing; otherwise as many links as funding entries |
| `GraphQL.SponsorLinksPointwise` | scripts/build.py:58-68 | the links keep the funding entries' length and order; a `GITHUB` entry becomes `https://github.com/sponsors/` plus its last segment; any other entry is passed through unchanged |
| `GraphQL.GetSponsorUrl` | scripts/build.py:49-68 | an empty list when the repository is missing; otherwise one link per funding entry, in order, `GITHUB` entries rewritten and others unchanged |
| `GraphQL.SponsorUrlsExample` | scripts/build.py:61-66 | for a `GITHUB` entry `https://github.com/<org>` followed by an entry of another platform, the links are `https://github.com/sponsors/<org>` and the other URL |
| `GraphQL.GetHomepageUrl` | scripts/build.py:70-83 | the homepage URL when the repository is present and the URL is neither null nor empty; None otherwise |
| `GithubApi.GetLicense` | scripts/build.py:175-185 | never `NOASSERTION`; `""` exactly for a missing license, the sentinel or an empty id; otherwise the SPDX id |
| `GithubApi.GetChangelog` | scripts/build.py:187-195 | the download URL of `changelog.md`, or `""` when the file is missing |
| `GithubApi.Kind.Name` | scripts/build.py:116-123 | the `kind` string is `"git"` exactly for a git module and `"update-json"` exactly for an update-json module |
| `GithubApi.GenerateModule` | scripts/build.py:111-159 | no record exactly when `module.prop` is missing, and `KeyError("id")` exactly when the descriptor lacks `id`. A record otherwise: kind `update-json` iff `updateJson` is present and non-empty (provider is that value, changelog `""`), else `git` (SSH URL as provider, changelog URL or `""`); license never `NOASSERTION`; support non-empty iff issues are enabled, and then `html_url + "/issues"`; source is `clone_url`; donate is the first sponsor link or `""`; homepage is the homepage URL or `""` |
| `GithubApi.WithDescriptor` | scripts/build.py:164-167 | the repositories that have a `module.prop`: no more than the input, and a repository is kept if and only if it is in the input and has a descriptor |
| `GithubApi.Catalog` | scripts/build.py:161-169 | the records of the repositories with a `module.prop`, in enumeration order, at most one per repository, or the first `KeyError("id")` |
| `GithubApi.CatalogFailsIffMissingId` | scripts/build.py:161-169 | the catalog fails, with `KeyError("id")`, exactly when some repository has a descriptor without `id` |
| `GithubApi.CatalogFollowsDescriptors` | scripts/build.py:161-169 | a successful catalog has one record per repository with a descriptor, in enumeration order, each the record `GenerateModule` makes of that repository |
| `GithubApi.CatalogSkipsNonModule` | scripts/build.py:164-167 | inserting a repository without `module.prop` anywhere in the enumeration leaves the catalog unchanged |
| `GithubApi.CatalogFailureIsFinal` | scripts/build.py:164-167 | once a prefix of the enumeration has raised, the whole walk ends with that failure |
| `GithubApi.TwoRepositoryCatalog` | scripts/build.py:111-169 | for a repository with descriptor `id=<id>` and a `changelog.md`, followed by one without a descriptor, the catalog is exactly one `git` record with that id, the SSH URL as provider and the changelog URL |
| `GithubApi.Api.constructor` | scripts/build.py:105-109 | `_config` starts with empty `log` and `repository` and the empty-object placeholder for `modules` |
| `GithubApi.Api.GenerateModules` | scripts/build.py:161-169 | on success `modules` becomes the catalog and nothing else in `_config` changes; on a `KeyError` the error is returned and `_config` is unchanged |

## Left out

- The HTTP transport of `GitHubGraphQL.graphql_query` (bearer header, `requests.post`, `response.ok`) and the query text built in `query_repository`: the decoded answer is an input, None for a response that is not ok.
- PyGithub (`Github`, `get_user`, `get_repos`, `get_contents`, `get_license`, `decoded_content.decode`): their answers are fields of `Repository`, and the account's repositories are the input sequence of `Api.GenerateModules`.
- Exceptions other than `UnknownObjectException` and the `id` `KeyError` are not modelled: transport failures, a `module.prop` that is not valid UTF-8, a `changelog.md` that is a directory, or a GraphQL object lacking the requested field. Each would abort the run in the source.
- JSON values of an unexpected type at `data` or `repository` (neither an object nor null): only absent or null, versus an object, is modelled.
- `GithubApi.GetLicense`: a license whose `spdx_id` is null (written as JSON `null` by the source) is not modelled; the SPDX id is always a string.
- The insertion order of the `module_prop` dictionary: nothing downstream reads it, since only `id` and `updateJson` are looked up.
- `GitHubGraphQL.get_pushed_at`: it depends on a foreign date parser, and the pipeline never calls it.
- `GithubApi.write_to` (JSON serialisation to a file) and the `print` of each id: file and console output.
- `Main` (argument parsing, token from the environment) and `scripts/git-commit.py` (subprocess calls to the mirroring tool and git, directory pruning by file size, timestamp formatting): process plumbing and filesystem work.
