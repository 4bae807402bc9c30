/**
 * The header's navigation button: find the app link whose path is the button's page path,
 * searching each link and then its sublinks, and render it (or nothing) with the current
 * path highlighted.
 */
module HeaderButton {
  import opened Wrappers

  /** An app link of the navigation store; sublinks are searched one level deep. */
  datatype AppLink = AppLink(name: string, path: string, enabled: bool, sublinks: seq<AppLink>)

  /** The rendered `LinkWrapper`: its `href`, whether it is highlighted, and the link's name. */
  datatype Button = Button(href: string, current: bool, name: string)

  /** `isCurrentPath()`: the home page only on exact equality, any other page by prefix. */
  predicate IsCurrentPath(pagePath: string, pathname: string) {
    if pagePath == "/" then pathname == pagePath else pagePath <= pathname
  }

  /** The home page is current only at "/"; a page is current on itself and below it. */
  lemma CurrentPathRule(pagePath: string, rest: string)
    ensures IsCurrentPath("/", rest) <==> rest == "/"
    ensures pagePath != "/" ==> IsCurrentPath(pagePath, pagePath + rest)
    ensures IsCurrentPath(pagePath, pagePath)
  {
    assert pagePath <= pagePath + rest by {
      assert (pagePath + rest)[..|pagePath|] == pagePath;
    }
  }

  /** The links in search order: each link, then its sublinks. */
  function Candidates(links: seq<AppLink>): seq<AppLink> {
    if links == [] then []
    else
      var last := links[|links| - 1];
      Candidates(links[..|links| - 1]) + ([last] + last.sublinks)
  }

  /** The first candidate with the given path. */
  function FirstMatch(s: seq<AppLink>, path: string): Option<AppLink> {
    if s == [] then None
    else if s[0].path == path then Some(s[0])
    else FirstMatch(s[1..], path)
  }

  /** The match found has the path and no earlier candidate has it; none only when no candidate has it. */
  lemma {:induction false} FirstMatchSpec(s: seq<AppLink>, path: string)
    ensures FirstMatch(s, path).None? <==> forall k :: 0 <= k < |s| ==> s[k].path != path
    ensures FirstMatch(s, path).Some? ==>
      exists k :: 0 <= k < |s| && s[k] == FirstMatch(s, path).value && s[k].path == path &&
        forall j :: 0 <= j < k ==> s[j].path != path
  {
    if s != [] && s[0].path != path {
      FirstMatchSpec(s[1..], path);
      var r := FirstMatch(s[1..], path);
      if r.Some? {
        var k :| 0 <= k < |s[1..]| && s[1..][k] == r.value && s[1..][k].path == path &&
          forall j :: 0 <= j < k ==> s[1..][j].path != path;
        assert s[k + 1] == r.value;
        forall j | 0 <= j < k + 1 ensures s[j].path != path {
          if j > 0 {
            assert s[1..][j - 1] == s[j];
          }
        }
      } else {
        forall k | 0 <= k < |s| ensures s[k].path != path {
          if k > 0 {
            assert s[1..][k - 1] == s[k];
          }
        }
      }
    }
  }

  /** A match in the first part hides every later one. */
  lemma {:induction false} FirstMatchConcat(a: seq<AppLink>, b: seq<AppLink>, path: string)
    ensures FirstMatch(a + b, path) == if FirstMatch(a, path).Some? then FirstMatch(a, path) else FirstMatch(b, path)
  {
    if a != [] {
      assert (a + b)[1..] == a[1..] + b;
      FirstMatchConcat(a[1..], b, path);
    } else {
      assert a + b == b;
    }
  }

  /** The lookup loop: link `i`, then its sublinks, then link `i + 1`; stop once found. */
  method FindLink(links: seq<AppLink>, pagePath: string) returns (link: Option<AppLink>)
    ensures link == FirstMatch(Candidates(links), pagePath)
  {
    link := None;
    var linkIndex := 0;
    while linkIndex < |links| && link.None?
      invariant 0 <= linkIndex <= |links|
      invariant link == FirstMatch(Candidates(links[..linkIndex]), pagePath)
    {
      var current := links[linkIndex];
      link := SearchLink(current, pagePath);
      assert links[..linkIndex + 1][..linkIndex] == links[..linkIndex];
      FirstMatchConcat(Candidates(links[..linkIndex]), [current] + current.sublinks, pagePath);
      linkIndex := linkIndex + 1;
    }
    FirstMatchConcat(Candidates(links[..linkIndex]), Candidates(links[linkIndex..]), pagePath);
    CandidatesSplit(links, linkIndex);
  }

  /** One turn of the lookup: the link itself, then its sublinks until one matches. */
  method SearchLink(current: AppLink, pagePath: string) returns (link: Option<AppLink>)
    ensures link == FirstMatch([current] + current.sublinks, pagePath)
  {
    link := None;
    if current.path == pagePath {
      link := Some(current);
    }
    var sublinkIndex := 0;
    while sublinkIndex < |current.sublinks| && link.None?
      invariant 0 <= sublinkIndex <= |current.sublinks|
      invariant link == FirstMatch([current] + current.sublinks[..sublinkIndex], pagePath)
    {
      if current.sublinks[sublinkIndex].path == pagePath {
        link := Some(current.sublinks[sublinkIndex]);
      }
      var next := current.sublinks[sublinkIndex];
      FirstMatchConcat([current] + current.sublinks[..sublinkIndex], [next], pagePath);
      assert [next][1..] == [];
      assert [current] + current.sublinks[..sublinkIndex + 1] == [current] + current.sublinks[..sublinkIndex] + [next];
      sublinkIndex := sublinkIndex + 1;
    }
    FirstMatchConcat([current] + current.sublinks[..sublinkIndex], current.sublinks[sublinkIndex..], pagePath);
    assert [current] + current.sublinks[..sublinkIndex] + current.sublinks[sublinkIndex..] == [current] + current.sublinks;
  }

  lemma {:induction false} CandidatesSplit(links: seq<AppLink>, i: nat)
    requires i <= |links|
    ensures Candidates(links) == Candidates(links[..i]) + Candidates(links[i..])
    decreases |links|
  {
    if i < |links| {
      var n := |links| - 1;
      CandidatesSplit(links[..n], i);
      assert links[..n][..i] == links[..i];
      assert links[i..][..|links[i..]| - 1] == links[..n][i..];
      assert links[i..][|links[i..]| - 1] == links[n];
    } else {
      assert links[..i] == links;
      assert links[i..] == [];
    }
  }

  /**
   * `HeaderButton`: nothing when no link has the page path or the first one that has it is
   * disabled; otherwise a button to the page (to the current path when the button is
   * disabled), highlighted when the page is current.
   */
  method Render(links: seq<AppLink>, pagePath: string, pathname: string, disabled: bool) returns (b: Option<Button>)
    ensures var found := FirstMatch(Candidates(links), pagePath);
      (b.None? <==> found.None? || !found.value.enabled) &&
      (b.Some? ==> b.value == Button(if disabled then pathname else pagePath, IsCurrentPath(pagePath, pathname), found.value.name))
  {
    var link := FindLink(links, pagePath);
    if link.None? {
      return None;
    }
    if !link.value.enabled {
      return None;
    }
    b := Some(Button(if disabled then pathname else pagePath, IsCurrentPath(pagePath, pathname), link.value.name));
  }
}
