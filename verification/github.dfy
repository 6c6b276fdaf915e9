/** Naming a repository after its GitHub URL: `owner-repo`. */
module GithubName {
  import opened Text
  import opened Results

  const Host := "github.com"

  /** The fixed name returned when the URL has no `github.com` segment followed by
      an owner and a repository. */
  const InvalidName := "Invalid URL or username not found"

  /** `parts.index(x)`: the first position holding `x`, or nothing when `x` is absent. */
  function IndexOf(parts: seq<string>, x: string): (r: Option<nat>)
    ensures r.None? <==> x !in parts
    ensures r.Some? ==> r.value < |parts| && parts[r.value] == x && x !in parts[..r.value]
    decreases |parts|
  {
    if |parts| == 0 then None
    else if parts[0] == x then Some(0)
    else
      match IndexOf(parts[1..], x)
      case None => None
      case Some(i) =>
        assert parts[..i + 1] == [parts[0]] + parts[1..][..i];
        Some(i + 1)
  }

  /** Splits the URL on `/`, finds the first `github.com` segment and joins the
      next two segments with `-`; a missing segment gives `InvalidName`. */
  function ExtractGithubName(url: string): (name: string)
    ensures var parts := Split(url, '/');
      Host !in parts ==> name == InvalidName
    ensures var parts := Split(url, '/');
      forall i :: 0 <= i < |parts| && parts[i] == Host && Host !in parts[..i] ==>
        name == if i + 2 < |parts| then parts[i + 1] + "-" + parts[i + 2] else InvalidName
  {
    var parts := Split(url, '/');
    match IndexOf(parts, Host)
    case None => InvalidName
    case Some(i) =>
      if i + 2 < |parts| then parts[i + 1] + "-" + parts[i + 2] else InvalidName
  }

  /** The segments of `https://<host>/<owner>/<repo>`. */
  lemma {:induction false} SplitRepositoryUrl(host: string, owner: string, repo: string)
    requires '/' !in host && '/' !in owner && '/' !in repo
    ensures Split("https://" + host + "/" + owner + "/" + repo, '/') == ["https:", "", host, owner, repo]
  {
    var parts := ["https:", "", host, owner, repo];
    assert Join(parts, '/') == "https://" + host + "/" + owner + "/" + repo by {
      assert Join(parts[4..], '/') == repo;
      assert Join(parts[3..], '/') == owner + "/" + repo by {
        assert parts[3..][1..] == parts[4..];
      }
      assert Join(parts[2..], '/') == host + "/" + owner + "/" + repo by {
        assert parts[2..][1..] == parts[3..];
      }
      assert Join(parts[1..], '/') == "/" + host + "/" + owner + "/" + repo by {
        assert parts[1..][1..] == parts[2..];
      }
    }
    forall i | 0 <= i < |parts|
      ensures '/' !in parts[i]
    {
    }
    SplitJoin(parts, '/');
  }

  /** A URL of the form `https://github.com/<owner>/<repo>` names the folder
      `<owner>-<repo>`. */
  lemma NameOfRepositoryUrl(owner: string, repo: string)
    requires '/' !in owner && '/' !in repo
    ensures ExtractGithubName("https://" + Host + "/" + owner + "/" + repo) == owner + "-" + repo
  {
    var parts := ["https:", "", Host, owner, repo];
    var url := "https://" + Host + "/" + owner + "/" + repo;
    SplitRepositoryUrl(Host, owner, repo);
    assert "https:" != Host && "" != Host;
    assert parts[..2] == ["https:", ""];
    assert Host !in parts[..2];
    assert parts[2] == Host;
    assert ExtractGithubName(url) == parts[3] + "-" + parts[4];
  }

  /** A URL whose host is not `github.com` is rejected, even when the owner or the
      repository is called `github.com`: too few segments follow it. */
  lemma RejectsOtherHosts(host: string, owner: string, repo: string)
    requires '/' !in host && '/' !in owner && '/' !in repo
    requires host != Host
    ensures ExtractGithubName("https://" + host + "/" + owner + "/" + repo) == InvalidName
  {
    var parts := ["https:", "", host, owner, repo];
    SplitRepositoryUrl(host, owner, repo);
    assert "https:" != Host && "" != Host;
  }
}
