/** The link-extraction loop of `get_google_entries`
    (cogs/utils/checks.py): from the result containers of a search page, in
    document order, keep the redirect links and take the destination each
    one names in its `q` query parameter. */
module Search {
  import opened Wrappers

  /** Internal redirect links start with this. */
  const RedirectPrefix: string := "/url?"

  /** The first `<a>` under an `<h3>` of a result container, with its
      `href` attribute if it has one. */
  datatype Anchor = Anchor(href: Option<string>)

  /** A result container (`div` of class `g`) and its heading link, if any. */
  datatype ResultNode = ResultNode(heading: Option<Anchor>)

  /** Errors that escape the loop, with the position of the container that
      raised them: a heading link without `href`, and a redirect whose
      query string has no `q` parameter (both a `KeyError` in Python). */
  datatype SearchError = MissingHref(node: nat) | MissingQuery(node: nat)

  /** What the loop body does with one container. */
  datatype Outcome = Skip | Keep(url: string) | Fail(error: SearchError)

  predicate StartsWith(s: string, prefix: string) {
    |prefix| <= |s| && s[..|prefix|] == prefix
  }

  /** The body of the loop for the container at position `index`.
      `queryParam` stands for `parse_qs(...)['q'][0]` on the text after the
      prefix, None when there is no `q` parameter. */
  function Classify(node: ResultNode, index: nat, queryParam: string -> Option<string>): (o: Outcome)
    ensures o.Fail? ==> o.error.node == index
    ensures o == Fail(MissingHref(index)) <==> node.heading.Some? && node.heading.value.href.None?
    ensures o == Fail(MissingQuery(index)) <==>
      node.heading.Some? && node.heading.value.href.Some?
      && StartsWith(node.heading.value.href.value, RedirectPrefix)
      && queryParam(node.heading.value.href.value[|RedirectPrefix|..]).None?
    ensures o.Keep? <==> node.heading.Some? && node.heading.value.href.Some?
                         && StartsWith(node.heading.value.href.value, RedirectPrefix)
                         && queryParam(node.heading.value.href.value[|RedirectPrefix|..]).Some?
    ensures o.Keep? ==> o.url == queryParam(node.heading.value.href.value[|RedirectPrefix|..]).value
    ensures o.Skip? <==> node.heading.None? ||
                         (node.heading.value.href.Some? && !StartsWith(node.heading.value.href.value, RedirectPrefix))
  {
    match node.heading
    case None => Skip
    case Some(anchor) =>
      match anchor.href
      case None => Fail(MissingHref(index))
      case Some(url) =>
        if !StartsWith(url, RedirectPrefix) then Skip
        else
          match queryParam(url[|RedirectPrefix|..])
          case None => Fail(MissingQuery(index))
          case Some(target) => Keep(target)
  }

  /** What the loop produces over `nodes`: the list of entries, or the first
      error raised. */
  function Entries(nodes: seq<ResultNode>, queryParam: string -> Option<string>): Result<seq<string>, SearchError>
    decreases |nodes|
  {
    if nodes == [] then Ok([])
    else
      var last := |nodes| - 1;
      var prior := Entries(nodes[..last], queryParam);
      if prior.Err? then prior
      else
        match Classify(nodes[last], last, queryParam)
        case Skip => prior
        case Keep(url) => Ok(prior.value + [url])
        case Fail(e) => Err(e)
  }

  /** The loop of `get_google_entries`: it appends to `entries` one node at
      a time; an error leaves the function. */
  method CollectEntries(nodes: seq<ResultNode>, queryParam: string -> Option<string>)
    returns (r: Result<seq<string>, SearchError>)
    ensures r == Entries(nodes, queryParam)
  {
    var entries: seq<string> := [];
    var i := 0;
    while i < |nodes|
      invariant 0 <= i <= |nodes|
      invariant Entries(nodes[..i], queryParam) == Ok(entries)
    {
      assert nodes[..i + 1][..i] == nodes[..i];
      var node := nodes[i];
      if node.heading.None? {
        i := i + 1;
        continue;
      }
      var href := node.heading.value.href;
      if href.None? {
        r := Err(MissingHref(i));
        ErrorPersists(nodes, i + 1, queryParam);
        return;
      }
      var url := href.value;
      if !StartsWith(url, RedirectPrefix) {
        i := i + 1;
        continue;
      }
      var target := queryParam(url[|RedirectPrefix|..]);
      if target.None? {
        r := Err(MissingQuery(i));
        ErrorPersists(nodes, i + 1, queryParam);
        return;
      }
      entries := entries + [target.value];
      i := i + 1;
    }
    assert nodes[..i] == nodes;
    r := Ok(entries);
  }

  /** Once the loop has raised, later containers do not matter. */
  lemma {:induction false} ErrorPersists(nodes: seq<ResultNode>, k: nat, queryParam: string -> Option<string>)
    requires k <= |nodes| && Entries(nodes[..k], queryParam).Err?
    ensures Entries(nodes, queryParam) == Entries(nodes[..k], queryParam)
    decreases |nodes| - k
  {
    if k < |nodes| {
      assert nodes[..k + 1][..k] == nodes[..k];
      ErrorPersists(nodes, k + 1, queryParam);
    } else {
      assert nodes[..k] == nodes;
    }
  }

  /** There are never more entries than result containers. */
  lemma {:induction false} EntriesLength(nodes: seq<ResultNode>, queryParam: string -> Option<string>)
    requires Entries(nodes, queryParam).Ok?
    ensures |Entries(nodes, queryParam).value| <= |nodes|
    decreases |nodes|
  {
    if nodes != [] {
      EntriesLength(nodes[..|nodes| - 1], queryParam);
    }
  }

  /** The loop completes exactly when no container raises. */
  lemma {:induction false} EntriesSucceed(nodes: seq<ResultNode>, queryParam: string -> Option<string>)
    ensures Entries(nodes, queryParam).Ok? <==> forall i | 0 <= i < |nodes| :: !Classify(nodes[i], i, queryParam).Fail?
    decreases |nodes|
  {
    if nodes != [] {
      var last := |nodes| - 1;
      var init := nodes[..last];
      EntriesSucceed(init, queryParam);
      assert forall i | 0 <= i < last :: init[i] == nodes[i];
    }
  }

  /** When the loop raises, the error comes from the first container that
      raises one. */
  lemma {:induction false} EntriesFirstError(nodes: seq<ResultNode>, queryParam: string -> Option<string>)
    requires Entries(nodes, queryParam).Err?
    ensures var e := Entries(nodes, queryParam).error;
      e.node < |nodes| && Classify(nodes[e.node], e.node, queryParam) == Fail(e) &&
      forall j | 0 <= j < e.node :: !Classify(nodes[j], j, queryParam).Fail?
    decreases |nodes|
  {
    var last := |nodes| - 1;
    var init := nodes[..last];
    assert forall i | 0 <= i < last :: init[i] == nodes[i];
    if Entries(init, queryParam).Err? {
      EntriesFirstError(init, queryParam);
    } else {
      EntriesSucceed(init, queryParam);
    }
  }

  /** The entries are, in document order and without deduplication, the
      targets of the containers kept: `picked` lists their positions,
      increasing, and every container not picked was skipped. */
  lemma {:induction false} EntriesInOrder(nodes: seq<ResultNode>, queryParam: string -> Option<string>)
    returns (picked: seq<nat>)
    requires Entries(nodes, queryParam).Ok?
    ensures var entries := Entries(nodes, queryParam).value;
      |picked| == |entries| &&
      (forall k | 0 <= k < |picked| :: picked[k] < |nodes| && Classify(nodes[picked[k]], picked[k], queryParam) == Keep(entries[k])) &&
      (forall k, l | 0 <= k < l < |picked| :: picked[k] < picked[l]) &&
      (forall i | 0 <= i < |nodes| && i !in picked :: Classify(nodes[i], i, queryParam).Skip?)
    decreases |nodes|
  {
    if nodes == [] {
      picked := [];
    } else {
      var last := |nodes| - 1;
      var init := nodes[..last];
      assert forall i | 0 <= i < last :: init[i] == nodes[i];
      var before := EntriesInOrder(init, queryParam);
      match Classify(nodes[last], last, queryParam)
      case Skip =>
        picked := before;
      case Keep(url) =>
        picked := before + [last];
      case Fail(e) =>
        assert false;
    }
  }

  /** A page with two organic results around a container without a heading
      link yields the two destinations, in page order. */
  lemma TwoResultsExample(queryParam: string -> Option<string>, first: string, second: string)
    requires queryParam("q=" + first) == Some(first) && queryParam("q=" + second) == Some(second)
    ensures Entries([
      ResultNode(Some(Anchor(Some(RedirectPrefix + "q=" + first)))),
      ResultNode(None),
      ResultNode(Some(Anchor(Some("/aclk?sa=ad")))),
      ResultNode(Some(Anchor(Some(RedirectPrefix + "q=" + second))))], queryParam) == Ok([first, second])
  {
    var nodes := [
      ResultNode(Some(Anchor(Some(RedirectPrefix + "q=" + first)))),
      ResultNode(None),
      ResultNode(Some(Anchor(Some("/aclk?sa=ad")))),
      ResultNode(Some(Anchor(Some(RedirectPrefix + "q=" + second))))];
    var h1, h2 := RedirectPrefix + "q=" + first, RedirectPrefix + "q=" + second;
    assert h1[..|RedirectPrefix|] == RedirectPrefix && h1[|RedirectPrefix|..] == "q=" + first;
    assert h2[..|RedirectPrefix|] == RedirectPrefix && h2[|RedirectPrefix|..] == "q=" + second;
    assert Classify(nodes[0], 0, queryParam) == Keep(first);
    assert Classify(nodes[3], 3, queryParam) == Keep(second);
    assert !StartsWith("/aclk?sa=ad", RedirectPrefix) by {
      assert "/aclk?sa=ad"[1] != RedirectPrefix[1];
    }
    assert nodes[..1][..0] == [] && nodes[..1][0] == nodes[0];
    assert Entries([], queryParam) == Ok([]);
    assert [] + [first] == [first];
    assert Entries(nodes[..1], queryParam) == Ok([first]);
    assert nodes[..2][..1] == nodes[..1] && nodes[..2][1] == nodes[1];
    assert Entries(nodes[..2], queryParam) == Ok([first]);
    assert nodes[..3][..2] == nodes[..2] && nodes[..3][2] == nodes[2];
    assert Entries(nodes[..3], queryParam) == Ok([first]);
    assert nodes[..3] == nodes[..|nodes| - 1];
    assert [first] + [second] == [first, second];
    assert Entries(nodes, queryParam) == Ok([first, second]);
  }
}
