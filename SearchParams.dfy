/** How the two search entry points read their request parameters into a search query.
    `getSearchPostsNew` takes whole values (comma-separated lists for the category filters),
    `getSearchPosts` takes the rest of any parameter name that mentions a category. */
module SearchParams {
  import opened Common
  import opened Strings

  /** A request parameter: its name and value, in request order. */
  type Param = (string, string)

  /** The parsed search: category filter values, the presence flags, the sort key and the keyword. */
  datatype Query = Query(
    badges: seq<string>,
    tags: seq<string>,
    types: seq<string>,
    formats: seq<string>,
    unread: bool,
    hidden: bool,
    deleted: bool,
    sort: string,
    keyword: string)

  /** The sort key when none is given. */
  const DefaultSort: string := "relevance"

  /** The value of the last parameter with this name (the one the parsing loop leaves in place). */
  function LastValue(params: seq<Param>, name: string): Option<string>
    decreases |params|
  {
    if |params| == 0 then None
    else
      var n := |params| - 1;
      if params[n].0 == name then Some(params[n].1) else LastValue(params[..n], name)
  }

  /** A name has a value iff some parameter has that name, and the value is the one of the last
      parameter with that name. */
  lemma {:induction false} LastValueSpec(params: seq<Param>, name: string)
    ensures LastValue(params, name).Some? <==> exists i :: 0 <= i < |params| && params[i].0 == name
    ensures LastValue(params, name).Some? ==>
              exists i :: 0 <= i < |params| && params[i] == (name, LastValue(params, name).value) &&
                          forall j :: i < j < |params| ==> params[j].0 != name
    decreases |params|
  {
    if |params| > 0 {
      var n := |params| - 1;
      LastValueSpec(params[..n], name);
      assert forall i :: 0 <= i < n ==> params[..n][i] == params[i];
    }
  }

  /** One more parameter: it decides the name's value when it has that name. */
  lemma LastValueSnoc(params: seq<Param>, i: nat, name: string)
    requires i < |params|
    ensures LastValue(params[..i + 1], name) ==
            if params[i].0 == name then Some(params[i].1) else LastValue(params[..i], name)
  {
    assert params[..i + 1][..i] == params[..i];
  }

  function OrDefault(v: Option<string>, dflt: string): string
  {
    if v.Some? then v.value else dflt
  }

  /** A category parameter of the new search: `explode(',', value)`, or no values when absent. */
  function ListParam(params: seq<Param>, name: string): seq<string>
  {
    match LastValue(params, name)
    case None => []
    case Some(v) => Explode(',', v)
  }

  /** The query `getSearchPostsNew` reads from its parameters. */
  function NewQuery(params: seq<Param>): Query
  {
    Query(ListParam(params, "badge"), ListParam(params, "tag"), ListParam(params, "type"),
          ListParam(params, "format"),
          LastValue(params, "unread").Some?, LastValue(params, "hidden").Some?,
          LastValue(params, "deleted").Some?,
          OrDefault(LastValue(params, "sort"), DefaultSort), OrDefault(LastValue(params, "key"), ""))
  }

  /** The parameter loop of `getSearchPostsNew`. */
  method ParseParams(params: seq<Param>) returns (q: Query)
    ensures q == NewQuery(params)
  {
    var badges: seq<string> := [];
    var tags: seq<string> := [];
    var types: seq<string> := [];
    var formats: seq<string> := [];
    var unread, hidden, deleted := false, false, false;
    var sort := DefaultSort;
    var keyword := "";
    var i := 0;
    while i < |params|
      invariant i <= |params|
      invariant badges == ListParam(params[..i], "badge") && tags == ListParam(params[..i], "tag")
      invariant types == ListParam(params[..i], "type") && formats == ListParam(params[..i], "format")
      invariant unread == LastValue(params[..i], "unread").Some?
      invariant hidden == LastValue(params[..i], "hidden").Some?
      invariant deleted == LastValue(params[..i], "deleted").Some?
      invariant sort == OrDefault(LastValue(params[..i], "sort"), DefaultSort)
      invariant keyword == OrDefault(LastValue(params[..i], "key"), "")
    {
      var (name, value) := params[i];
      LastValueSnoc(params, i, "badge");
      LastValueSnoc(params, i, "tag");
      LastValueSnoc(params, i, "type");
      LastValueSnoc(params, i, "format");
      LastValueSnoc(params, i, "unread");
      LastValueSnoc(params, i, "hidden");
      LastValueSnoc(params, i, "deleted");
      LastValueSnoc(params, i, "sort");
      LastValueSnoc(params, i, "key");
      badges := if name == "badge" then Explode(',', value) else badges;
      types := if name == "type" then Explode(',', value) else types;
      formats := if name == "format" then Explode(',', value) else formats;
      tags := if name == "tag" then Explode(',', value) else tags;
      keyword := if name == "key" then value else keyword;
      sort := if name == "sort" then value else sort;
      unread := unread || name == "unread";
      hidden := hidden || name == "hidden";
      deleted := deleted || name == "deleted";
      i := i + 1;
    }
    assert params[..i] == params;
    q := Query(badges, tags, types, formats, unread, hidden, deleted, sort, keyword);
  }

  /** The flags are false unless present, and present means true whatever the value. */
  lemma FlagsArePresence(params: seq<Param>)
    ensures var q := NewQuery(params);
            && (q.hidden <==> exists i :: 0 <= i < |params| && params[i].0 == "hidden")
            && (q.deleted <==> exists i :: 0 <= i < |params| && params[i].0 == "deleted")
            && (q.unread <==> exists i :: 0 <= i < |params| && params[i].0 == "unread")
  {
    LastValueSpec(params, "hidden");
    LastValueSpec(params, "deleted");
    LastValueSpec(params, "unread");
  }

  /** Without the parameter the sort key is `relevance`; with it, the value of its last occurrence. */
  lemma SortParam(params: seq<Param>, v: string)
    ensures (forall i :: 0 <= i < |params| ==> params[i].0 != "sort") ==> NewQuery(params).sort == DefaultSort
    ensures |params| > 0 && params[|params| - 1] == ("sort", v) ==> NewQuery(params).sort == v
  {
    LastValueSpec(params, "sort");
  }

  /** A category value list joins back to the parameter's text, and no value holds a comma. */
  lemma ListParamRoundTrip(params: seq<Param>, name: string, v: string)
    requires LastValue(params, name) == Some(v)
    ensures Implode(',', ListParam(params, name)) == v
    ensures forall k :: 0 <= k < |ListParam(params, name)| ==> ',' !in ListParam(params, name)[k]
  {
    ImplodeExplode(',', v);
  }

  // ---------------------------------------------------------------- the older entry point

  /** What `(.*)` captures: the rest of the text up to the first line feed. */
  function UpToLine(s: string): (r: string)
    ensures '\n' !in r && (r == s || (|r| < |s| && s[|r|] == '\n')) && r == s[..|r|]
    decreases |s|
  {
    if |s| == 0 || s[0] == '\n' then [] else [s[0]] + UpToLine(s[1..])
  }

  /** `preg_match('/word(.*)/i', name)`: the capture after the first case-insensitive occurrence. */
  function Capture(name: string, word: string): Option<string>
    requires |word| > 0
  {
    match Find(name, word, true)
    case None => None
    case Some(k) => Some(UpToLine(name[k + |word|..]))
  }

  /** The capture of one name, as a list of at most one value. */
  function CaptureList(name: string, word: string): seq<string>
    requires |word| > 0
  {
    match Capture(name, word)
    case None => []
    case Some(c) => [c]
  }

  /** The captures of every parameter name that mentions `word`, in order. */
  function Captures(params: seq<Param>, word: string): seq<string>
    requires |word| > 0
    decreases |params|
  {
    if |params| == 0 then []
    else
      var n := |params| - 1;
      Captures(params[..n], word) + CaptureList(params[n].0, word)
  }

  /** One more parameter appends its name's capture. */
  lemma CapturesSnoc(params: seq<Param>, i: nat, word: string)
    requires i < |params| && |word| > 0
    ensures Captures(params[..i + 1], word) == Captures(params[..i], word) + CaptureList(params[i].0, word)
  {
    assert params[..i + 1][..i] == params[..i];
  }

  /** The query `getSearchPosts` reads from its parameters, with the keyword given separately. */
  function LegacyQuery(params: seq<Param>, keyword: string): Query
  {
    Query(Captures(params, "badge"), Captures(params, "tag"), Captures(params, "type"), Captures(params, "format"),
          LastValue(params, "unread").Some?, LastValue(params, "hidden").Some?,
          LastValue(params, "deleted").Some?,
          OrDefault(LastValue(params, "sort"), DefaultSort), keyword)
  }

  /** The parameter loop of `getSearchPosts`. */
  method ParseLegacyParams(params: seq<Param>, keyword: string) returns (q: Query)
    ensures q == LegacyQuery(params, keyword)
  {
    var badges: seq<string> := [];
    var tags: seq<string> := [];
    var types: seq<string> := [];
    var formats: seq<string> := [];
    var unread, hidden, deleted := false, false, false;
    var sort := DefaultSort;
    var i := 0;
    while i < |params|
      invariant i <= |params|
      invariant badges == Captures(params[..i], "badge") && tags == Captures(params[..i], "tag")
      invariant types == Captures(params[..i], "type") && formats == Captures(params[..i], "format")
      invariant unread == LastValue(params[..i], "unread").Some?
      invariant hidden == LastValue(params[..i], "hidden").Some?
      invariant deleted == LastValue(params[..i], "deleted").Some?
      invariant sort == OrDefault(LastValue(params[..i], "sort"), DefaultSort)
    {
      var (name, value) := params[i];
      CapturesSnoc(params, i, "badge");
      CapturesSnoc(params, i, "tag");
      CapturesSnoc(params, i, "type");
      CapturesSnoc(params, i, "format");
      LastValueSnoc(params, i, "unread");
      LastValueSnoc(params, i, "hidden");
      LastValueSnoc(params, i, "deleted");
      LastValueSnoc(params, i, "sort");
      badges := badges + CaptureList(name, "badge");
      tags := tags + CaptureList(name, "tag");
      types := types + CaptureList(name, "type");
      formats := formats + CaptureList(name, "format");
      sort := if name == "sort" then value else sort;
      unread := unread || name == "unread";
      hidden := hidden || name == "hidden";
      deleted := deleted || name == "deleted";
      i := i + 1;
    }
    assert params[..i] == params;
    q := Query(badges, tags, types, formats, unread, hidden, deleted, sort, keyword);
  }

  /** In the older search the filter value is taken from the parameter's name, never its value, and
      any name that contains `tag` in any case adds one: `Hashtags=7` adds the tag value `s`. */
  lemma LegacyTagInsideName()
    ensures Captures([("Hashtags", "7")], "tag") == ["s"]
  {
    var name := "Hashtags";
    assert Lower(name[4..][..3]) == Lower("tag");
    assert OccursAt(name, "tag", 4, true);
    forall j | 0 <= j < 4 ensures !OccursAt(name, "tag", j, true) {
      assert Lower(name[j..][..3])[0] != 't';
    }
    FindIsFirst(name, "tag", true, 4);
    assert name[7..] == "s";
    assert [("Hashtags", "7")][..0] == [];
  }
}
