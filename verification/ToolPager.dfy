/** The firmware's paginated `tools/list` (Model Context Protocol 2024-11-05, "Pagination").

A `char` stands for one byte.  A tool carries the JSON text its `to_json` prints.
*/
module ToolPager {
  import opened Sequences

  const MAX_PAYLOAD_SIZE: nat := 8000
  const RESERVED: nat := 30
  const PREFIX: string := "{\"tools\":["
  const LAST_SUFFIX: string := "]}"
  const CURSOR_PREFIX: string := "],\"nextCursor\":\""
  const CURSOR_SUFFIX: string := "\"}"

  datatype Tool = Tool(name: string, json: string, userOnly: bool)

  datatype Reply = Page(json: string, nextCursor: string) | PayloadError(tool: string)

  predicate Visible(tool: Tool, listUserOnly: bool) {
    listUserOnly || !tool.userOnly
  }

  ghost function VisibleTools(tools: seq<Tool>, listUserOnly: bool): seq<Tool> {
    if tools == [] then []
    else VisibleTools(tools[..|tools| - 1], listUserOnly) +
         if Visible(tools[|tools| - 1], listUserOnly) then [tools[|tools| - 1]] else []
  }

  // ---- one page ----

  /** Where a cursor starts listing: at the first tool of that name, or nowhere. */
  ghost function StartOf(tools: seq<Tool>, cursor: string, i: nat): (start: nat)
    requires i <= |tools|
    ensures i <= start <= |tools|
    decreases |tools| - i
  {
    if cursor == "" || i == |tools| || tools[i].name == cursor then i else StartOf(tools, cursor, i + 1)
  }

  /** The first visible tool from `i` on that no longer fits behind `used` bytes. */
  ghost function EndOf(tools: seq<Tool>, listUserOnly: bool, i: nat, used: nat): (end: nat)
    requires i <= |tools|
    ensures i <= end <= |tools|
    decreases |tools| - i
  {
    if i == |tools| then i
    else if !Visible(tools[i], listUserOnly) then EndOf(tools, listUserOnly, i + 1, used)
    else if used + |tools[i].json| + 1 + RESERVED > MAX_PAYLOAD_SIZE then i
    else EndOf(tools, listUserOnly, i + 1, used + |tools[i].json| + 1)
  }

  /** Prefix and tools, each followed by a comma. */
  ghost function Listed(tools: seq<Tool>): (text: string)
    ensures |text| > 0
  {
    if tools == [] then PREFIX else Listed(tools[..|tools| - 1]) + (tools[|tools| - 1].json + ",")
  }

  /** The page with its trailing comma dropped and its closing text. */
  ghost function Render(tools: seq<Tool>, nextCursor: string): string {
    var text := Listed(tools);
    (if tools == [] then text else text[..|text| - 1]) +
    if nextCursor == "" then LAST_SUFFIX else CURSOR_PREFIX + nextCursor + CURSOR_SUFFIX
  }

  ghost function CursorAt(tools: seq<Tool>, i: nat): string {
    if i < |tools| then tools[i].name else ""
  }

  /** The tools a page from `i` lists. */
  ghost function PageTools(tools: seq<Tool>, listUserOnly: bool, i: nat): seq<Tool>
    requires i <= |tools|
  {
    VisibleTools(tools[i..EndOf(tools, listUserOnly, i, |PREFIX|)], listUserOnly)
  }

  ghost function PageFrom(tools: seq<Tool>, listUserOnly: bool, i: nat): Reply
    requires i <= |tools|
  {
    var next := CursorAt(tools, EndOf(tools, listUserOnly, i, |PREFIX|));
    var listed := PageTools(tools, listUserOnly, i);
    if listed == [] && tools != [] then PayloadError(next) else Page(Render(listed, next), next)
  }

  /** What `to_json` prints is an object, so no tool's text ends like the opening of the list. */
  ghost predicate PrintsObjects(tools: seq<Tool>) {
    forall k :: 0 <= k < |tools| ==> tools[k].json != "" && tools[k].json[|tools[k].json| - 1] == '}'
  }

  ghost predicate DistinctNames(tools: seq<Tool>) {
    forall i, j :: 0 <= i < j < |tools| ==> tools[i].name != tools[j].name
  }

  predicate HasName(tools: seq<Tool>, name: string) {
    exists k :: 0 <= k < |tools| && tools[k].name == name
  }

  /** The list after adding these tools one by one: the first of each name stays. */
  ghost function Added(tools: seq<Tool>): seq<Tool> {
    if tools == [] then []
    else
      var earlier, last := Added(tools[..|tools| - 1]), tools[|tools| - 1];
      if HasName(earlier, last.name) then earlier else earlier + [last]
  }

  class McpServer {
    var tools: seq<Tool>

    constructor ()
      ensures tools == []
    {
      tools := [];
    }

    method AddTool(tool: Tool)
      modifies this
      ensures tools == if HasName(old(tools), tool.name) then old(tools) else old(tools) + [tool]
    {
      var k := 0;
      while k < |tools|
        invariant 0 <= k <= |tools| && tools == old(tools)
        invariant forall j :: 0 <= j < k ==> tools[j].name != tool.name
      {
        if tools[k].name == tool.name {
          return;
        }
        k := k + 1;
      }
      tools := tools + [tool];
    }

    /** Common tools go first; the tools registered before are spliced in behind them, unchecked. */
    method AddCommonTools(common: seq<Tool>)
      modifies this
      ensures tools == Added(common) + old(tools)
    {
      var originalTools := tools;
      tools := [];
      for n := 0 to |common|
        invariant tools == Added(common[..n])
      {
        assert common[..n + 1][..n] == common[..n];
        AddTool(common[n]);
      }
      assert common[..|common|] == common;
      tools := tools + originalTools;
    }

    method GetToolsList(cursor: string, listUserOnly: bool) returns (reply: Reply)
      requires PrintsObjects(tools)
      ensures reply == PageFrom(tools, listUserOnly, StartOf(tools, cursor, 0))
    {
      hide Render, Listed, EndOf, StartOf, VisibleTools;
      ghost var start := StartOf(tools, cursor, 0);
      var json, nextCursor := FillPage(cursor, listUserOnly);
      ghost var listed := PageTools(tools, listUserOnly, start);
      TextEnds(tools, start, EndOf(tools, listUserOnly, start, |PREFIX|), listUserOnly);
      if json[|json| - 1] == ',' {
        json := json[..|json| - 1];
      }
      if json[|json| - 1] == '[' && |tools| > 0 {
        return PayloadError(nextCursor);
      }
      RenderIs(listed, nextCursor, json);
      if nextCursor == "" {
        json := json + LAST_SUFFIX;
      } else {
        json := json + (CURSOR_PREFIX + nextCursor + CURSOR_SUFFIX);
      }
      reply := Page(json, nextCursor);
    }

    /** The listing loop. */
    method FillPage(cursor: string, listUserOnly: bool) returns (json: string, nextCursor: string)
      ensures var start := StartOf(tools, cursor, 0);
        && json == Listed(PageTools(tools, listUserOnly, start))
        && nextCursor == CursorAt(tools, EndOf(tools, listUserOnly, start, |PREFIX|))
    {
      hide Listed, EndOf, StartOf, VisibleTools;
      json := PREFIX;
      nextCursor := "";
      var foundCursor := cursor == "";
      var it := 0;
      ghost var start := StartOf(tools, cursor, 0);
      ghost var end := EndOf(tools, listUserOnly, start, |PREFIX|);
      NothingListed(listUserOnly);
      assert tools[0..0] == [];
      while it < |tools|
        invariant 0 <= it <= |tools| && nextCursor == ""
        invariant !foundCursor ==> cursor != "" && StartOf(tools, cursor, it) == start && json == PREFIX
        invariant foundCursor ==> start <= it && json == Listed(VisibleTools(tools[start..it], listUserOnly))
        invariant foundCursor ==> EndOf(tools, listUserOnly, it, |json|) == end
        decreases |tools| - it
      {
        StartStep(tools, cursor, it);
        if !foundCursor {
          if tools[it].name == cursor {
            foundCursor := true;
            assert tools[start..it] == [];
          } else {
            it := it + 1;
            continue;
          }
        }
        EndStep(tools, listUserOnly, it, |json|);
        ListOneMore(tools, listUserOnly, start, it);
        if !listUserOnly && tools[it].userOnly {
          it := it + 1;
          continue;
        }
        var toolJson := tools[it].json + ",";
        if |json| + |toolJson| + RESERVED > MAX_PAYLOAD_SIZE {
          nextCursor := tools[it].name;
          return;
        }
        json := json + toolJson;
        it := it + 1;
      }
      EndsAtEnd(tools, listUserOnly, cursor, |json|);
      if !foundCursor {
        EndsAtEnd(tools, listUserOnly, cursor, |PREFIX|);
        assert tools[start..end] == [];
      }
    }
  }

  lemma NothingListed(listUserOnly: bool)
    ensures VisibleTools([], listUserOnly) == [] && Listed([]) == PREFIX
    ensures forall tools: seq<Tool> :: StartOf(tools, "", 0) == 0
  {
  }

  lemma StartStep(tools: seq<Tool>, cursor: string, i: nat)
    requires i < |tools|
    ensures StartOf(tools, "", i) == i
    ensures cursor != "" ==>
              StartOf(tools, cursor, i) == if tools[i].name == cursor then i else StartOf(tools, cursor, i + 1)
  {
  }

  lemma EndStep(tools: seq<Tool>, listUserOnly: bool, i: nat, used: nat)
    requires i < |tools|
    ensures EndOf(tools, listUserOnly, i, used) ==
            if !Visible(tools[i], listUserOnly) then EndOf(tools, listUserOnly, i + 1, used)
            else if used + |tools[i].json| + 1 + RESERVED > MAX_PAYLOAD_SIZE then i
            else EndOf(tools, listUserOnly, i + 1, used + |tools[i].json| + 1)
  {
  }

  lemma EndsAtEnd(tools: seq<Tool>, listUserOnly: bool, cursor: string, used: nat)
    ensures EndOf(tools, listUserOnly, |tools|, used) == |tools| && StartOf(tools, cursor, |tools|) == |tools|
  {
  }

  /** A listing ends in a comma, and without it in a brace; an empty one ends in the bracket. */
  lemma TextEnds(tools: seq<Tool>, start: nat, end: nat, listUserOnly: bool)
    requires PrintsObjects(tools) && start <= end <= |tools|
    ensures var listed := VisibleTools(tools[start..end], listUserOnly); var text := Listed(listed);
      && (listed == [] ==> text == PREFIX && text[|text| - 1] == '[')
      && (listed != [] ==> |text| > 1 && text[|text| - 1] == ',' && text[|text| - 2] == '}')
  {
    var listed := VisibleTools(tools[start..end], listUserOnly);
    if listed != [] {
      VisibleAreTools(tools[start..end], listUserOnly);
      assert listed[|listed| - 1] in listed;
      var last := listed[|listed| - 1];
      assert last in tools[start..end];
      assert last in tools;
    }
  }

  lemma {:induction false} VisibleAreTools(tools: seq<Tool>, listUserOnly: bool)
    ensures forall t :: t in VisibleTools(tools, listUserOnly) <==> t in tools && Visible(t, listUserOnly)
  {
    if tools != [] {
      VisibleAreTools(tools[..|tools| - 1], listUserOnly);
      assert tools == tools[..|tools| - 1] + [tools[|tools| - 1]];
    }
  }

  lemma RenderIs(listed: seq<Tool>, nextCursor: string, json: string)
    requires json == if listed == [] then Listed(listed) else Listed(listed)[..|Listed(listed)| - 1]
    ensures Render(listed, nextCursor) ==
            json + if nextCursor == "" then LAST_SUFFIX else CURSOR_PREFIX + nextCursor + CURSOR_SUFFIX
  {
    hide Listed;
  }

  /** Walking over one tool of a page. */
  lemma ListOneMore(tools: seq<Tool>, listUserOnly: bool, start: nat, it: nat)
    requires start <= it < |tools|
    ensures !Visible(tools[it], listUserOnly) ==>
              VisibleTools(tools[start..it + 1], listUserOnly) == VisibleTools(tools[start..it], listUserOnly)
    ensures Visible(tools[it], listUserOnly) ==>
              Listed(VisibleTools(tools[start..it + 1], listUserOnly)) ==
              Listed(VisibleTools(tools[start..it], listUserOnly)) + (tools[it].json + ",")
  {
    assert tools[start..it + 1][..it - start] == tools[start..it];
    var listed := VisibleTools(tools[start..it], listUserOnly);
    if Visible(tools[it], listUserOnly) {
      assert (listed + [tools[it]])[..|listed|] == listed;
    } else {
      assert listed + [] == listed;
    }
  }

  // ---- names ----

  /** Adding one by one keeps the names distinct and loses none. */
  lemma {:induction false} AddedIsDistinct(tools: seq<Tool>)
    ensures DistinctNames(Added(tools))
    ensures forall name :: HasName(Added(tools), name) <==> HasName(tools, name)
  {
    if tools != [] {
      var prefix, last := tools[..|tools| - 1], tools[|tools| - 1];
      AddedIsDistinct(prefix);
      HasNameAppend(prefix, last);
      HasNameAppend(Added(prefix), last);
      assert tools == prefix + [last];
    }
  }

  lemma HasNameAppend(tools: seq<Tool>, tool: Tool)
    ensures forall name :: HasName(tools + [tool], name) <==> HasName(tools, name) || tool.name == name
  {
    var longer := tools + [tool];
    forall name ensures HasName(longer, name) <==> HasName(tools, name) || tool.name == name {
      if HasName(tools, name) {
        var k :| 0 <= k < |tools| && tools[k].name == name;
        assert longer[k].name == name;
      }
      if tool.name == name {
        assert longer[|tools|].name == name;
      }
    }
  }

  /** The unchecked splice keeps the names distinct exactly when no common tool reuses one. */
  lemma SpliceIsDistinct(common: seq<Tool>, original: seq<Tool>)
    requires DistinctNames(original)
    ensures DistinctNames(Added(common) + original) <==>
            forall name :: !(HasName(common, name) && HasName(original, name))
  {
    hide Added;
    AddedIsDistinct(common);
    DistinctAppend(Added(common), original);
  }

  lemma SharedNameClashes(a: seq<Tool>, b: seq<Tool>, name: string)
    requires HasName(a, name) && HasName(b, name)
    ensures !DistinctNames(a + b)
  {
    var i :| 0 <= i < |a| && a[i].name == name;
    var j :| 0 <= j < |b| && b[j].name == name;
    assert (a + b)[i].name == (a + b)[|a| + j].name;
  }

  lemma DistinctAppend(a: seq<Tool>, b: seq<Tool>)
    requires DistinctNames(a) && DistinctNames(b)
    ensures DistinctNames(a + b) <==> forall name :: !(HasName(a, name) && HasName(b, name))
  {
    if DistinctNames(a + b) {
      forall name ensures !(HasName(a, name) && HasName(b, name)) {
        if HasName(a, name) && HasName(b, name) {
          SharedNameClashes(a, b, name);
          assert false;
        }
      }
    } else {
      var i, j :| 0 <= i < j < |a + b| && (a + b)[i].name == (a + b)[j].name;
      assert i < |a| <= j;
      assert HasName(a, a[i].name) && HasName(b, b[j - |a|].name);
    }
  }

  // ---- following the cursor ----

  /** A cursor leads back to its own tool exactly when that name is not empty and not used earlier. */
  lemma {:induction false} CursorResolves(tools: seq<Tool>, from: nat, k: nat)
    requires from <= k < |tools|
    ensures StartOf(tools, tools[k].name, from) == k <==>
            k == from || (tools[k].name != "" && forall j :: from <= j < k ==> tools[j].name != tools[k].name)
    decreases k - from
  {
    if from < k && tools[k].name != "" && tools[from].name != tools[k].name {
      CursorResolves(tools, from + 1, k);
    }
  }

  /** The tools of each page met when following cursors, and whether the last page came. */
  datatype Walk = Walk(pages: seq<seq<Tool>>, complete: bool)

  ghost function WalkFrom(tools: seq<Tool>, listUserOnly: bool, i: nat): Walk
    requires i <= |tools|
    decreases |tools| - i
  {
    var end, listed := EndOf(tools, listUserOnly, i, |PREFIX|), PageTools(tools, listUserOnly, i);
    if listed == [] && tools != [] then Walk([], false)
    else if end == |tools| then Walk([listed], true)
    else
      NonEmptyPageAdvances(tools, listUserOnly, i);
      var rest := WalkFrom(tools, listUserOnly, end);
      Walk([listed] + rest.pages, rest.complete)
  }

  lemma NonEmptyPageAdvances(tools: seq<Tool>, listUserOnly: bool, i: nat)
    requires i <= |tools| && PageTools(tools, listUserOnly, i) != []
    ensures i < EndOf(tools, listUserOnly, i, |PREFIX|)
  {
    assert tools[i..i] == [];
  }

  ghost predicate FitsAlone(tool: Tool) {
    |PREFIX| + |tool.json| + 1 + RESERVED <= MAX_PAYLOAD_SIZE
  }

  ghost predicate UsableNames(tools: seq<Tool>) {
    DistinctNames(tools) && forall k :: 0 <= k < |tools| ==> tools[k].name != ""
  }

  lemma {:induction false} VisibleAppend(a: seq<Tool>, b: seq<Tool>, listUserOnly: bool)
    ensures VisibleTools(a + b, listUserOnly) == VisibleTools(a, listUserOnly) + VisibleTools(b, listUserOnly)
  {
    if b == [] {
      assert a + b == a;
    } else {
      var n := |b| - 1;
      assert (a + b)[..|a + b| - 1] == a + b[..n];
      VisibleAppend(a, b[..n], listUserOnly);
      Assoc(VisibleTools(a, listUserOnly), VisibleTools(b[..n], listUserOnly),
            if Visible(b[n], listUserOnly) then [b[n]] else []);
    }
  }

  lemma VisibleFirst(tools: seq<Tool>, i: nat, end: nat, listUserOnly: bool)
    requires i < end <= |tools|
    ensures VisibleTools(tools[i..end], listUserOnly) ==
            (if Visible(tools[i], listUserOnly) then [tools[i]] else []) + VisibleTools(tools[i + 1..end], listUserOnly)
  {
    hide VisibleTools;
    assert tools[i..end] == [tools[i]] + tools[i + 1..end];
    VisibleAppend([tools[i]], tools[i + 1..end], listUserOnly);
    VisibleOne(tools[i], listUserOnly);
  }

  lemma VisibleOne(tool: Tool, listUserOnly: bool)
    ensures VisibleTools([tool], listUserOnly) == if Visible(tool, listUserOnly) then [tool] else []
  {
    NothingListed(listUserOnly);
    assert [tool][..0] == [];
    assert [] + [tool] == [tool];
  }

  ghost function TotalJson(tools: seq<Tool>): nat {
    if tools == [] then 0 else |tools[0].json| + 1 + TotalJson(tools[1..])
  }

  /** Why a page ends where it does. */
  lemma {:induction false} EndOfFacts(tools: seq<Tool>, listUserOnly: bool, i: nat, used: nat)
    requires i <= |tools| && used >= |PREFIX|
    ensures var end := EndOf(tools, listUserOnly, i, used); var listed := VisibleTools(tools[i..end], listUserOnly);
      && (forall k :: i <= k < end && Visible(tools[k], listUserOnly) ==> FitsAlone(tools[k]))
      && (end < |tools| ==> Visible(tools[end], listUserOnly))
      && (end < |tools| && listed == [] ==> used + |tools[end].json| + 1 + RESERVED > MAX_PAYLOAD_SIZE)
      && (listed != [] ==> used + TotalJson(listed) + RESERVED <= MAX_PAYLOAD_SIZE)
    decreases |tools| - i
  {
    hide VisibleTools;
    var end := EndOf(tools, listUserOnly, i, used);
    NothingListed(listUserOnly);
    if i == end {
      assert tools[i..end] == [];
    } else {
      VisibleFirst(tools, i, end, listUserOnly);
      var rest := VisibleTools(tools[i + 1..end], listUserOnly);
      if Visible(tools[i], listUserOnly) {
        assert ([tools[i]] + rest)[1..] == rest;
        EndOfFacts(tools, listUserOnly, i + 1, used + |tools[i].json| + 1);
      } else {
        assert [] + rest == rest;
        EndOfFacts(tools, listUserOnly, i + 1, used);
      }
    }
  }

  lemma {:induction false} ListedLength(tools: seq<Tool>)
    ensures |Listed(tools)| == |PREFIX| + TotalJson(tools)
  {
    if tools != [] {
      ListedLength(tools[..|tools| - 1]);
      TotalJsonAppend(tools[..|tools| - 1], tools[|tools| - 1]);
      assert tools == tools[..|tools| - 1] + [tools[|tools| - 1]];
    }
  }

  lemma {:induction false} TotalJsonAppend(tools: seq<Tool>, tool: Tool)
    ensures TotalJson(tools + [tool]) == TotalJson(tools) + |tool.json| + 1
  {
    if tools != [] {
      assert (tools + [tool])[1..] == tools[1..] + [tool];
      TotalJsonAppend(tools[1..], tool);
    }
  }

  /** The exact size of every page that lists something. */
  lemma PageLength(tools: seq<Tool>, listUserOnly: bool, i: nat)
    requires i <= |tools| && PageTools(tools, listUserOnly, i) != []
    ensures var page := PageFrom(tools, listUserOnly, i);
      && page.Page?
      && |page.json| == |PREFIX| + TotalJson(PageTools(tools, listUserOnly, i)) - 1 +
                        if page.nextCursor == "" then 2 else 18 + |page.nextCursor|
  {
    hide VisibleTools, Listed, EndOf;
    ListedLength(PageTools(tools, listUserOnly, i));
  }

  /** The announced 8000 bytes are kept on the last page, and exceeded by at most the cursor less 13 on
      the others. */
  lemma PageSize(tools: seq<Tool>, listUserOnly: bool, i: nat)
    requires i <= |tools| && PageTools(tools, listUserOnly, i) != []
    ensures var page := PageFrom(tools, listUserOnly, i);
      && page.Page?
      && (page.nextCursor == "" ==> |page.json| <= 7971)
      && (page.nextCursor != "" ==> |page.json| <= 7987 + |page.nextCursor|)
  {
    hide VisibleTools, Listed, EndOf, PageFrom;
    PageLength(tools, listUserOnly, i);
    EndOfFacts(tools, listUserOnly, i, |PREFIX|);
  }

  ghost predicate NamesAtMost(tools: seq<Tool>, n: nat) {
    forall k :: 0 <= k < |tools| ==> |tools[k].name| <= n
  }

  ghost predicate KeepsLimit(tools: seq<Tool>, listUserOnly: bool, i: nat)
    requires i <= |tools|
  {
    PageTools(tools, listUserOnly, i) != [] ==> |PageFrom(tools, listUserOnly, i).json| <= MAX_PAYLOAD_SIZE
  }

  /** Every page of every list of usable tools with names of at most `n` bytes keeps the limit. */
  ghost predicate LimitHoldsForNames(n: nat) {
    forall tools: seq<Tool>, listUserOnly: bool, i: nat ::
      i <= |tools| && UsableNames(tools) && PrintsObjects(tools) && NamesAtMost(tools, n) ==> KeepsLimit(tools, listUserOnly, i)
  }

  /** The announced limit holds exactly as long as no name has more than 13 bytes. */
  lemma LimitHoldsIffShortNames(n: nat)
    ensures LimitHoldsForNames(n) <==> n <= 13
  {
    hide PageTools, PageFrom;
    if n <= 13 {
      forall tools: seq<Tool>, listUserOnly: bool, i: nat | i <= |tools| && NamesAtMost(tools, n)
        ensures KeepsLimit(tools, listUserOnly, i)
      {
        if PageTools(tools, listUserOnly, i) != [] {
          PageSize(tools, listUserOnly, i);
          CursorIsAName(tools, listUserOnly, i);
        }
      }
    } else {
      var tools := OverlongPage(n, true);
      assert !KeepsLimit(tools, true, 0);
    }
  }

  lemma CursorIsAName(tools: seq<Tool>, listUserOnly: bool, i: nat)
    requires i <= |tools| && PageTools(tools, listUserOnly, i) != []
    ensures var cursor := PageFrom(tools, listUserOnly, i).nextCursor;
      cursor == "" || exists k :: 0 <= k < |tools| && tools[k].name == cursor
  {
    hide EndOf, VisibleTools, Render;
  }

  /** A first tool that just fits and a second with a name of `n` bytes: from 14 bytes on the first page
      is too long. */
  lemma OverlongPage(n: nat, listUserOnly: bool) returns (tools: seq<Tool>)
    requires n >= 14
    ensures |tools| == 2 && UsableNames(tools) && PrintsObjects(tools) && NamesAtMost(tools, n)
    ensures PageTools(tools, listUserOnly, 0) == [tools[0]]
    ensures PageFrom(tools, listUserOnly, 0).nextCursor == tools[1].name && |tools[1].name| == n
    ensures |PageFrom(tools, listUserOnly, 0).json| == 7987 + n
  {
    hide PageFrom, VisibleTools;
    var big, small := Tool("a", seq(7959, _ => '}'), false), Tool(seq(n, _ => 'b'), "}", false);
    tools := [big, small];
    OnlyFirstFits(tools, listUserOnly);
    assert TotalJson([big]) == 7960 by {
      assert [big][1..] == [];
    }
    PageLength(tools, listUserOnly, 0);
    NextCursorIs(tools, listUserOnly);
  }

  lemma OnlyFirstFits(tools: seq<Tool>, listUserOnly: bool)
    requires |tools| == 2 && Visible(tools[0], listUserOnly) && Visible(tools[1], listUserOnly)
    requires |tools[0].json| == 7959 && tools[1].json != ""
    ensures EndOf(tools, listUserOnly, 0, |PREFIX|) == 1 && PageTools(tools, listUserOnly, 0) == [tools[0]]
  {
    hide VisibleTools;
    assert EndOf(tools, listUserOnly, 1, |PREFIX| + |tools[0].json| + 1) == 1;
    assert tools[0..1] == [tools[0]];
    VisibleOne(tools[0], listUserOnly);
  }

  lemma NextCursorIs(tools: seq<Tool>, listUserOnly: bool)
    requires tools != [] && PageTools(tools, listUserOnly, 0) != []
    ensures PageFrom(tools, listUserOnly, 0).Page?
    ensures PageFrom(tools, listUserOnly, 0).nextCursor == CursorAt(tools, EndOf(tools, listUserOnly, 0, |PREFIX|))
  {
    hide PageTools, EndOf, Render;
  }

  /** Completeness.  Started at the front, or at the visible tool a cursor names, following cursors
      reaches the last page exactly when something is visible and every visible tool fits a page of
      its own; it has then listed every visible tool exactly once and in order. */
  lemma {:induction false} WalkIsComplete(tools: seq<Tool>, listUserOnly: bool, i: nat)
    requires i <= |tools| && tools != []
    ensures var walk, rest := WalkFrom(tools, listUserOnly, i), VisibleTools(tools[i..], listUserOnly);
      && (walk.complete <==> rest != [] && AllFitAlone(tools, listUserOnly, i))
      && (walk.complete ==> Concat(walk.pages) == rest)
    decreases |tools| - i
  {
    hide WalkFrom, VisibleTools, EndOf, FitsAlone, AllFitAlone;
    var end, listed := EndOf(tools, listUserOnly, i, |PREFIX|), PageTools(tools, listUserOnly, i);
    WalkUnfolds(tools, listUserOnly, i);
    PageSplitsRest(tools, listUserOnly, i);
    if listed != [] && end < |tools| {
      NonEmptyPageAdvances(tools, listUserOnly, i);
      WalkIsComplete(tools, listUserOnly, end);
      ConcatFirst(listed, WalkFrom(tools, listUserOnly, end).pages);
    } else if listed != [] {
      ConcatSingle(listed);
    }
  }

  ghost predicate AllFitAlone(tools: seq<Tool>, listUserOnly: bool, i: nat) {
    forall k :: i <= k < |tools| && Visible(tools[k], listUserOnly) ==> FitsAlone(tools[k])
  }

  lemma WalkUnfolds(tools: seq<Tool>, listUserOnly: bool, i: nat)
    requires i <= |tools| && tools != []
    ensures var end, listed := EndOf(tools, listUserOnly, i, |PREFIX|), PageTools(tools, listUserOnly, i);
      && (listed == [] ==> WalkFrom(tools, listUserOnly, i) == Walk([], false))
      && (listed != [] && end == |tools| ==> WalkFrom(tools, listUserOnly, i) == Walk([listed], true))
      && (listed != [] && end < |tools| ==>
            var rest := WalkFrom(tools, listUserOnly, end);
            WalkFrom(tools, listUserOnly, i) == Walk([listed] + rest.pages, rest.complete))
  {
    hide EndOf, VisibleTools;
  }

  /** What one page says about everything from its start on. */
  lemma PageSplitsRest(tools: seq<Tool>, listUserOnly: bool, i: nat)
    requires i <= |tools|
    ensures var end, listed := EndOf(tools, listUserOnly, i, |PREFIX|), PageTools(tools, listUserOnly, i);
      var rest, later := VisibleTools(tools[i..], listUserOnly), VisibleTools(tools[end..], listUserOnly);
      && rest == listed + later && (rest == [] <==> listed == [] && later == [])
      && (end == |tools| ==> later == [] && rest == listed && AllFitAlone(tools, listUserOnly, end))
      && (end < |tools| ==> later != [])
      && (end < |tools| && listed == [] ==> !AllFitAlone(tools, listUserOnly, i))
      && (AllFitAlone(tools, listUserOnly, i) <==> AllFitAlone(tools, listUserOnly, end))
  {
    hide VisibleTools, EndOf, FitsAlone;
    var end := EndOf(tools, listUserOnly, i, |PREFIX|);
    EndOfFacts(tools, listUserOnly, i, |PREFIX|);
    assert tools[i..] == tools[i..end] + tools[end..];
    VisibleAppend(tools[i..end], tools[end..], listUserOnly);
    NothingListed(listUserOnly);
    if end < |tools| {
      VisibleFirst(tools, end, |tools|, listUserOnly);
      TooLarge(tools[end]);
      assert tools[end..|tools|] == tools[end..];
      assert AllFitAlone(tools, listUserOnly, i) ==> FitsAlone(tools[end]);
    } else {
      assert tools[end..] == [];
    }
    if AllFitAlone(tools, listUserOnly, end) {
      forall k | i <= k < |tools| && Visible(tools[k], listUserOnly) ensures FitsAlone(tools[k]) {
        assert k < end || k >= end;
      }
    }
  }

  lemma TooLarge(tool: Tool)
    ensures FitsAlone(tool) <==> |PREFIX| + |tool.json| + 1 + RESERVED <= MAX_PAYLOAD_SIZE
  {
  }

  /** The client: ask for the first page, then for every cursor handed back, until there is none. */
  method FollowCursors(server: McpServer, listUserOnly: bool)
    returns (replies: seq<Reply>, complete: bool, ghost starts: seq<nat>, ghost pages: seq<seq<Tool>>)
    requires UsableNames(server.tools) && PrintsObjects(server.tools)
    ensures Walk(pages, complete) == WalkFrom(server.tools, listUserOnly, 0)
    ensures server.tools != [] ==>
              (complete <==> VisibleTools(server.tools, listUserOnly) != [] && AllFitAlone(server.tools, listUserOnly, 0))
    ensures complete && server.tools != [] ==> Concat(pages) == VisibleTools(server.tools, listUserOnly)
    ensures |replies| == |starts| == |pages| + if complete then 0 else 1
    ensures forall k :: 0 <= k < |starts| ==>
              starts[k] <= |server.tools| && replies[k] == PageFrom(server.tools, listUserOnly, starts[k])
    ensures forall k :: 0 <= k < |pages| ==> pages[k] == PageTools(server.tools, listUserOnly, starts[k])
  {
    hide WalkFrom, VisibleTools, EndOf, StartOf, Render, PageTools, UsableNames, AllFitAlone;
    replies, complete, starts, pages := [], false, [], [];
    var cursor := "";
    ghost var tools := server.tools;
    ghost var i: nat := 0;
    ghost var whole := WalkFrom(tools, listUserOnly, 0);
    NothingListed(listUserOnly);
    assert tools[0..] == tools;
    if tools != [] {
      WalkIsComplete(tools, listUserOnly, 0);
    }
    assert [] + whole.pages == whole.pages;
    while true
      invariant i <= |tools| && i == StartOf(tools, cursor, 0) && !complete
      invariant |replies| == |starts| == |pages|
      invariant whole.pages == pages + WalkFrom(tools, listUserOnly, i).pages
      invariant whole.complete == WalkFrom(tools, listUserOnly, i).complete
      invariant forall k :: 0 <= k < |starts| ==> starts[k] <= |tools| && replies[k] == PageFrom(tools, listUserOnly, starts[k])
      invariant forall k :: 0 <= k < |pages| ==> pages[k] == PageTools(tools, listUserOnly, starts[k])
      decreases |tools| - i
    {
      var reply := server.GetToolsList(cursor, listUserOnly);
      replies, starts := replies + [reply], starts + [i];
      ghost var listed, end := PageTools(tools, listUserOnly, i), EndOf(tools, listUserOnly, i, |PREFIX|);
      WalkStep(tools, listUserOnly, i);
      if reply.PayloadError? {
        assert pages + [] == pages;
        break;
      }
      if reply.nextCursor == "" {
        pages := pages + [listed];
        complete := true;
        break;
      }
      Assoc(pages, [listed], WalkFrom(tools, listUserOnly, end).pages);
      pages := pages + [listed];
      cursor := reply.nextCursor;
      i := end;
    }
  }

  /** With usable names the reply tells the client which case of the walk it is in, and where its
      cursor leads. */
  lemma WalkStep(tools: seq<Tool>, listUserOnly: bool, i: nat)
    requires UsableNames(tools) && i <= |tools|
    ensures var reply := PageFrom(tools, listUserOnly, i);
      var end, listed := EndOf(tools, listUserOnly, i, |PREFIX|), PageTools(tools, listUserOnly, i);
      && (reply.PayloadError? ==> WalkFrom(tools, listUserOnly, i) == Walk([], false))
      && (reply.Page? && reply.nextCursor == "" ==> WalkFrom(tools, listUserOnly, i) == Walk([listed], true))
      && (reply.Page? && reply.nextCursor != "" ==>
            && i < end <= |tools| && StartOf(tools, reply.nextCursor, 0) == end
            && WalkFrom(tools, listUserOnly, i) ==
               Walk([listed] + WalkFrom(tools, listUserOnly, end).pages, WalkFrom(tools, listUserOnly, end).complete))
  {
    hide EndOf, VisibleTools, Render;
    var end := EndOf(tools, listUserOnly, i, |PREFIX|);
    if PageTools(tools, listUserOnly, i) != [] && end < |tools| {
      NonEmptyPageAdvances(tools, listUserOnly, i);
      CursorResolves(tools, 0, end);
    }
  }


  // ---- what a client reads ----

  /** A scanner of JSON text: how deep it is, and where it is inside a string. */
  datatype Scanner = Scanner(depth: nat, inString: bool, escaped: bool)
  {
    predicate AtRest() {
      depth == 0 && !inString
    }

    function Over(c: char): Scanner {
      if inString then
        if escaped then this.(escaped := false)
        else if c == '\\' then this.(escaped := true)
        else if c == '\"' then this.(inString := false)
        else this
      else if c == '\"' then this.(inString := true)
      else if c == '{' || c == '[' then this.(depth := depth + 1)
      else if (c == '}' || c == ']') && depth > 0 then this.(depth := depth - 1)
      else this
    }
  }

  const START: Scanner := Scanner(0, false, false)

  /** Exactly one element: the scanner comes to rest at the end and not before. */
  predicate IsElement(s: string, scanner: Scanner) {
    s != "" &&
    var next := scanner.Over(s[0]);
    if |s| == 1 then next.AtRest() else !next.AtRest() && IsElement(s[1..], next)
  }

  /** The characters up to where the scanner first comes to rest. */
  function ElementLength(s: string, scanner: Scanner): (length: nat)
    ensures length <= |s| && (s != "" ==> length > 0)
  {
    if s == "" then 0
    else
      var next := scanner.Over(s[0]);
      if next.AtRest() then 1 else 1 + ElementLength(s[1..], next)
  }

  /** Brackets inside a string do not count, a quote behind a backslash does not end it, and only the
      outermost bracket ends an element. */
  lemma ScannerReadsStrings()
    ensures var inside := START.Over('{').Over('\"').Over('}').Over('\\').Over('\"').Over('[');
      && inside == Scanner(1, true, false) && !inside.AtRest()
      && inside.Over('\"') == Scanner(1, false, false) && !inside.Over('\"').AtRest()
      && inside.Over('\"').Over('[').Over(']').Over('}') == START && START.AtRest() && !START.Over('\"').AtRest()
  {
  }

  datatype Elements = Elements(items: seq<string>, rest: string)

  /** Elements separated by commas, and the text behind the last one. */
  function ReadElements(s: string): Elements
    decreases |s|
  {
    var n := ElementLength(s, START);
    if n < |s| && s[n] == ',' then
      var more := ReadElements(s[n + 1..]);
      Elements([s[..n]] + more.items, more.rest)
    else Elements([s[..n]], s[n..])
  }

  datatype ReadReply = Read(tools: seq<string>, nextCursor: string) | Unreadable

  /** The reply of `tools/list`: an object with the list of tools and, unless it is the last page, the
      next cursor. */
  function ReadPage(json: string): ReadReply {
    if !("{\"tools\":[" <= json) then Unreadable
    else
      var body := json[10..];
      var elements := if body != "" && body[0] == ']' then Elements([], body) else ReadElements(body);
      if elements.rest == "]}" then Read(elements.items, "")
      else if "],\"nextCursor\":\"" <= elements.rest && |elements.rest| >= 18
              && elements.rest[|elements.rest| - 2..] == "\"}" then
        Read(elements.items, elements.rest[16..|elements.rest| - 2])
      else Unreadable
  }

  function Jsons(tools: seq<Tool>): seq<string> {
    if tools == [] then [] else [tools[0].json] + Jsons(tools[1..])
  }

  /** The texts with commas between them. */
  function CommaJoined(items: seq<string>): string {
    if items == [] then "" else if |items| == 1 then items[0] else items[0] + "," + CommaJoined(items[1..])
  }

  /** What `to_json` prints is one JSON object. */
  ghost predicate PrintsElements(tools: seq<Tool>) {
    forall k :: 0 <= k < |tools| ==> IsElement(tools[k].json, START) && tools[k].json[0] == '{'
  }

  lemma {:induction false} ElementStops(s: string, t: string, scanner: Scanner)
    requires IsElement(s, scanner)
    ensures ElementLength(s + t, scanner) == |s|
  {
    assert (s + t)[1..] == s[1..] + t;
    if |s| > 1 {
      ElementStops(s[1..], t, scanner.Over(s[0]));
    }
  }

  lemma {:induction false} ElementsReadBack(items: seq<string>, rest: string)
    requires items != [] && (forall k :: 0 <= k < |items| ==> IsElement(items[k], START))
    requires rest != "" && rest[0] != ','
    ensures ReadElements(CommaJoined(items) + rest) == Elements(items, rest)
    decreases |items|
  {
    hide IsElement, ReadElements;
    var first := items[0];
    if |items| == 1 {
      ReadOne(first, rest);
      assert items == [first];
    } else {
      var more := CommaJoined(items[1..]) + rest;
      assert CommaJoined(items) + rest == first + ("," + more);
      ReadOne(first, "," + more);
      assert ("," + more)[1..] == more;
      ElementsReadBack(items[1..], rest);
      assert items == [first] + items[1..];
    }
  }

  lemma ReadOne(first: string, rest: string)
    requires IsElement(first, START)
    ensures ReadElements(first + rest) ==
            if rest != "" && rest[0] == ','
            then Elements([first] + ReadElements(rest[1..]).items, ReadElements(rest[1..]).rest)
            else Elements([first], rest)
  {
    hide IsElement, ElementLength;
    var s := first + rest;
    ElementStops(first, rest, START);
    assert s[..|first|] == first && s[|first|..] == rest;
    assert rest != "" ==> s[|first| + 1..] == rest[1..];
  }

  /** The listing loop's text: each tool and a comma, the last comma to be dropped. */
  lemma {:induction false} ListedIsJoined(tools: seq<Tool>)
    requires tools != []
    ensures Listed(tools) == "{\"tools\":[" + CommaJoined(Jsons(tools)) + ","
  {
    var init, last := tools[..|tools| - 1], tools[|tools| - 1];
    assert tools == init + [last];
    if init == [] {
      assert tools == [last] && [last][1..] == [];
    } else {
      ListedIsJoined(init);
      JoinedSnoc(init, last);
    }
  }

  lemma {:induction false} JoinedSnoc(tools: seq<Tool>, last: Tool)
    requires tools != []
    ensures CommaJoined(Jsons(tools + [last])) == CommaJoined(Jsons(tools)) + "," + last.json
  {
    assert (tools + [last])[1..] == tools[1..] + [last];
    if |tools| == 1 {
      assert tools[1..] == [] && [] + [last] == [last] && [last][1..] == [];
    } else {
      JoinedSnoc(tools[1..], last);
      JsonsLength(tools);
      JsonsLength(tools + [last]);
      var head, tail := tools[0].json + ",", CommaJoined(Jsons(tools[1..]));
      Assoc(head, tail, "," + last.json);
    }
  }

  lemma {:induction false} JsonsLength(tools: seq<Tool>)
    ensures |Jsons(tools)| == |tools|
    ensures forall k :: 0 <= k < |tools| ==> Jsons(tools)[k] == tools[k].json
  {
    if tools != [] {
      JsonsLength(tools[1..]);
    }
  }

  function Ending(nextCursor: string): string {
    if nextCursor == "" then "]}" else "],\"nextCursor\":\"" + nextCursor + "\"}"
  }

  lemma RenderIsJoined(tools: seq<Tool>, nextCursor: string)
    ensures Render(tools, nextCursor) == "{\"tools\":[" + (CommaJoined(Jsons(tools)) + Ending(nextCursor))
  {
    hide CommaJoined, Jsons;
    var text := Listed(tools);
    if tools == [] {
      assert CommaJoined(Jsons(tools)) == "" by { NothingJoined(); }
    } else {
      ListedIsJoined(tools);
      hide Listed;
      assert text[..|text| - 1] == "{\"tools\":[" + CommaJoined(Jsons(tools));
    }
    Assoc("{\"tools\":[", CommaJoined(Jsons(tools)), Ending(nextCursor));
  }

  lemma NothingJoined()
    ensures CommaJoined(Jsons([])) == ""
  {
  }

  lemma EndingReadsBack(items: seq<string>, json: string, nextCursor: string)
    requires "{\"tools\":[" <= json
    requires var body := json[10..];
      (if body != "" && body[0] == ']' then Elements([], body) else ReadElements(body)) == Elements(items, Ending(nextCursor))
    ensures ReadPage(json) == Read(items, nextCursor)
  {
    hide ReadElements;
    var rest := Ending(nextCursor);
    if nextCursor != "" {
      assert rest[16..|rest| - 2] == nextCursor && rest[|rest| - 2..] == "\"}";
      assert rest[1] == ',';
    }
  }

  /** A page is one JSON object whose list is exactly the page's tools, and whose cursor is the one the
      reply carries. */
  lemma PageReadsBack(tools: seq<Tool>, nextCursor: string)
    requires PrintsElements(tools)
    ensures ReadPage(Render(tools, nextCursor)) == Read(Jsons(tools), nextCursor)
  {
    hide Render, Listed, IsElement;
    var json, body := Render(tools, nextCursor), CommaJoined(Jsons(tools)) + Ending(nextCursor);
    RenderIsJoined(tools, nextCursor);
    assert json[10..] == body;
    if tools == [] {
      NothingJoined();
    } else {
      JsonsLength(tools);
      ElementsReadBack(Jsons(tools), Ending(nextCursor));
      FirstIsFirst(Jsons(tools), Ending(nextCursor));
    }
    hide ReadElements, CommaJoined, Ending;
    EndingReadsBack(Jsons(tools), json, nextCursor);
  }

  lemma FirstIsFirst(items: seq<string>, rest: string)
    requires items != [] && items[0] != ""
    ensures (CommaJoined(items) + rest)[0] == items[0][0]
  {
  }

  /** Every page of every list reads back as the tools it lists and the cursor to go on with. */
  lemma ReplyReadsBack(tools: seq<Tool>, listUserOnly: bool, i: nat)
    requires PrintsElements(tools) && i <= |tools| && PageFrom(tools, listUserOnly, i).Page?
    ensures var page := PageFrom(tools, listUserOnly, i);
      ReadPage(page.json) == Read(Jsons(PageTools(tools, listUserOnly, i)), page.nextCursor)
  {
    hide Render, EndOf, VisibleTools;
    var listed := PageTools(tools, listUserOnly, i);
    VisibleAreTools(tools[i..EndOf(tools, listUserOnly, i, |PREFIX|)], listUserOnly);
    forall k | 0 <= k < |listed| ensures IsElement(listed[k].json, START) && listed[k].json[0] == '{' {
      assert listed[k] in listed;
      assert listed[k] in tools[i..EndOf(tools, listUserOnly, i, |PREFIX|)];
      assert listed[k] in tools;
    }
    PageReadsBack(listed, PageFrom(tools, listUserOnly, i).nextCursor);
  }
}
