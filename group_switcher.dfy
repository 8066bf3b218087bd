/**
 * The group picker in the sidebar (components/layout/GroupSwitcher.tsx): which
 * group is shown as selected, which group a delete applies to, and the path the
 * page moves to after switching groups.
 */
module GroupSwitcher {
  import opened Common
  import opened Text

  datatype GroupOption = GroupOption(id: string, name: string)

  /**
   * `activeGroupId || groups[0]?.id`; `None` when there are no groups, where the
   * switcher renders nothing.
   */
  function SelectedGroupId(groups: seq<GroupOption>, activeGroupId: Option<string>): (r: Option<string>)
    ensures r.None? <==> groups == []
    ensures r.Some? && activeGroupId.Some? && activeGroupId.value != "" ==> r.value == activeGroupId.value
    ensures r.Some? && (activeGroupId.None? || activeGroupId.value == "") ==> r.value == groups[0].id
  {
    if groups == [] then None
    else if activeGroupId.Some? && activeGroupId.value != "" then activeGroupId
    else Some(groups[0].id)
  }

  /** The group `handleDelete` deletes: the selected one, when it is not empty and the user confirmed. */
  function DeleteTarget(groups: seq<GroupOption>, activeGroupId: Option<string>, confirmed: bool): (r: Option<string>)
    ensures r.Some? <==> confirmed && SelectedGroupId(groups, activeGroupId).Some?
                         && SelectedGroupId(groups, activeGroupId).value != ""
    ensures r.Some? ==> r == SelectedGroupId(groups, activeGroupId)
  {
    var selected := SelectedGroupId(groups, activeGroupId);
    if selected.None? || selected.value == "" || !confirmed then None else selected
  }

  // ---------------------------------------------------------------------------
  // The path after a switch: the first match of /\/groups\/[^/]+/ replaced

  const GroupsPrefix := "/groups/"

  /** `/groups/` followed by at least one character other than '/' starts at `p`. */
  predicate SegmentAt(s: string, p: int) {
    OccursAt(s, GroupsPrefix, p) && p + 8 < |s| && s[p + 8] != '/'
  }

  /** The end of the run of characters other than '/' that starts at `i`. */
  function RunEnd(s: string, i: nat): (r: nat)
    requires i <= |s|
    ensures i <= r <= |s| && (r == |s| || s[r] == '/')
    ensures forall k :: i <= k < r ==> s[k] != '/'
    decreases |s| - i
  {
    if i == |s| || s[i] == '/' then i else RunEnd(s, i + 1)
  }

  /** The leftmost position at or after `p` where the pattern matches. */
  function FirstSegment(s: string, p: nat): (r: Option<nat>)
    ensures r.None? ==> forall q :: p <= q ==> !SegmentAt(s, q)
    ensures r.Some? ==> p <= r.value && SegmentAt(s, r.value) && forall q :: p <= q < r.value ==> !SegmentAt(s, q)
    decreases |s| - p
  {
    if p >= |s| then None
    else if SegmentAt(s, p) then Some(p)
    else FirstSegment(s, p + 1)
  }

  /** A replacement text with no `$`, which `String.prototype.replace` copies as it is. */
  predicate Literal(t: string) {
    forall k :: 0 <= k < |t| ==> t[k] != '$'
  }

  /** The characters that, after a `$`, name a replacement pattern. */
  predicate PatternChar(c: char) {
    c == '$' || c == '&' || c == '`' || c == '\''
  }

  /** What `$c` stands for: a dollar sign, the matched text, the text before or after the match. */
  function Pattern(c: char, matched: string, before: string, after: string): (r: string)
    requires PatternChar(c)
    ensures c == '$' ==> r == "$"
    ensures c == '&' ==> r == matched
  {
    if c == '$' then "$" else if c == '&' then matched else if c == '`' then before else after
  }

  /**
   * The replacement text as `String.prototype.replace` expands it for a pattern
   * without capture groups: `$$` is a dollar sign, `$&` the matched text, `` $` ``
   * the text before the match and `$'` the text after it; every other `$` stands
   * for itself.
   */
  function Expand(t: string, matched: string, before: string, after: string): string
    decreases |t|
  {
    if t == [] then []
    else if t[0] == '$' && |t| >= 2 && PatternChar(t[1]) then
      Pattern(t[1], matched, before, after) + Expand(t[2..], matched, before, after)
    else [t[0]] + Expand(t[1..], matched, before, after)
  }

  /** A replacement text with no `$` is copied as it is. */
  lemma {:induction false} ExpandLiteral(t: string, matched: string, before: string, after: string)
    requires Literal(t)
    ensures Expand(t, matched, before, after) == t
    decreases |t|
  {
    if t != [] {
      assert t[0] != '$';
      ExpandLiteral(t[1..], matched, before, after);
    }
  }

  /** Text with no `$` in front of the replacement is copied ahead of the rest's expansion. */
  lemma {:induction false} ExpandAfterLiteral(u: string, t: string, matched: string, before: string, after: string)
    requires Literal(u)
    ensures Expand(u + t, matched, before, after) == u + Expand(t, matched, before, after)
    decreases |u|
  {
    if u != [] {
      assert (u + t)[0] == u[0] != '$' && (u + t)[1..] == u[1..] + t;
      ExpandAfterLiteral(u[1..], t, matched, before, after);
    } else {
      assert u + t == t;
    }
  }

  /**
   * `s.replace(/\/groups\/[^/]+/, "/groups/" + id)`: unchanged when the pattern is
   * not found; otherwise the first match gives way to `"/groups/"` and the
   * expanded id, which is the id itself when it holds no `$`.
   */
  function ReplaceGroup(s: string, id: string): (r: string)
    ensures FirstSegment(s, 0).None? ==> r == s
    ensures FirstSegment(s, 0).Some? ==>
      var p := FirstSegment(s, 0).value;
      var e := RunEnd(s, p + 8);
      r == s[..p] + GroupsPrefix + Expand(id, s[p..e], s[..p], s[e..]) + s[e..]
  {
    match FirstSegment(s, 0)
    case None => s
    case Some(p) =>
      var e := RunEnd(s, p + 8);
      var x := Expand(GroupsPrefix + id, s[p..e], s[..p], s[e..]);
      ExpandAfterLiteral(GroupsPrefix, id, s[p..e], s[..p], s[e..]);
      assert s[..p] + x == s[..p] + GroupsPrefix + Expand(id, s[p..e], s[..p], s[e..]);
      s[..p] + x + s[e..]
  }

  /**
   * `nextPath`: on a page under `/groups/` the group segment is swapped for the new
   * id; anywhere else, or with no path, the new group's expense list.
   */
  function NextPath(pathname: Option<string>, nextGroupId: string): (r: string)
    ensures pathname.Some? && Contains(pathname.value, GroupsPrefix) ==> r == ReplaceGroup(pathname.value, nextGroupId)
    ensures pathname.None? || !Contains(pathname.value, GroupsPrefix) ==> r == GroupsPrefix + nextGroupId + "/expenses"
  {
    if pathname.Some? && Contains(pathname.value, GroupsPrefix) then ReplaceGroup(pathname.value, nextGroupId)
    else GroupsPrefix + nextGroupId + "/expenses"
  }

  /** An id that can stand as one path segment and is copied literally by the replacement. */
  predicate SegmentId(id: string) {
    id != [] && forall k :: 0 <= k < |id| ==> id[k] != '/' && id[k] != '$'
  }

  /** The segment `"/groups/" + id` ends right where `id` does. */
  lemma SegmentEndsAfterId(pre: string, id: string, rest: string)
    requires SegmentId(id) && (rest == [] || rest[0] == '/')
    ensures var s := pre + GroupsPrefix + id + rest;
            RunEnd(s, |pre| + 8) == |pre| + 8 + |id|
  {
    var s := pre + GroupsPrefix + id + rest;
    var e := RunEnd(s, |pre| + 8);
    forall k | |pre| + 8 <= k < |pre| + 8 + |id| ensures s[k] != '/' {
      assert s[k] == id[k - |pre| - 8];
    }
    assert |pre| + 8 + |id| < |s| ==> s[|pre| + 8 + |id|] == rest[0];
  }

  /**
   * On a group page, switching keeps the rest of the path: `/groups/<current>/tail`
   * becomes `/groups/<new>/tail`, the new id expanded as a replacement text.
   */
  lemma SwitchKeepsPage(current: string, rest: string, id: string)
    requires SegmentId(current) && (rest == [] || rest[0] == '/')
    ensures NextPath(Some(GroupsPrefix + current + rest), id)
            == GroupsPrefix + Expand(id, GroupsPrefix + current, [], rest) + rest
    ensures Literal(id) ==> NextPath(Some(GroupsPrefix + current + rest), id) == GroupsPrefix + id + rest
  {
    if Literal(id) {
      ExpandLiteral(id, GroupsPrefix + current, [], rest);
    }
    var s := GroupsPrefix + current + rest;
    GroupPageSegment(current, rest);
    assert NextPath(Some(s), id) == ReplaceGroup(s, id);
    assert s[RunEnd(s, 8)..] == rest;
    assert s[0..RunEnd(s, 8)] == GroupsPrefix + current;
    assert s[..0] == [];
  }

  /** `$&` alone expands to the matched text. */
  lemma ExpandMatched(t: string, matched: string, before: string, after: string)
    requires |t| == 2 && t[0] == '$' && t[1] == '&'
    ensures Expand(t, matched, before, after) == matched
  {
    assert t[2..] == [];
  }

  /** The id `$&` brings the matched segment back into the path. */
  lemma MatchPatternInId(current: string, rest: string, id: string)
    requires SegmentId(current) && (rest == [] || rest[0] == '/')
    requires |id| == 2 && id[0] == '$' && id[1] == '&'
    ensures NextPath(Some(GroupsPrefix + current + rest), id) == GroupsPrefix + (GroupsPrefix + current) + rest
  {
    SwitchKeepsPage(current, rest, id);
    ExpandMatched(id, GroupsPrefix + current, [], rest);
  }

  /** On `/groups/<current><rest>` the pattern first matches at 0 and its segment ends with `current`. */
  lemma GroupPageSegment(current: string, rest: string)
    requires SegmentId(current) && (rest == [] || rest[0] == '/')
    ensures var s := GroupsPrefix + current + rest;
            FirstSegment(s, 0) == Some(0) && Contains(s, GroupsPrefix) && RunEnd(s, 8) == 8 + |current|
  {
    var s := GroupsPrefix + current + rest;
    assert OccursAt(s, GroupsPrefix, 0) by {
      assert s[..8] == GroupsPrefix;
    }
    assert s[8] == current[0];
    ContainsAt(s, GroupsPrefix, 0);
    SegmentEndsAfterId([], current, rest);
    assert [] + GroupsPrefix + current + rest == s;
  }

  /** Off the group pages the switch lands on the new group's expense list. */
  lemma SwitchFromElsewhere(pathname: string, id: string)
    requires !Contains(pathname, GroupsPrefix)
    ensures NextPath(Some(pathname), id) == "/groups/" + id + "/expenses"
  {
  }

  /** Switching to the group already in the path leaves the path as it is. */
  lemma SwitchIsIdempotent(pathname: Option<string>, id: string)
    requires SegmentId(id)
    ensures NextPath(Some(NextPath(pathname, id)), id) == NextPath(pathname, id)
  {
    var s := NextPath(pathname, id);
    if pathname.Some? && Contains(pathname.value, GroupsPrefix) {
      ReplaceTwice(pathname.value, id);
    } else {
      assert s == GroupsPrefix + id + "/expenses";
      SwitchKeepsPage(id, "/expenses", id);
    }
  }

  /** Replacing the group segment a second time with the same id changes nothing. */
  lemma ReplaceTwice(s: string, id: string)
    requires SegmentId(id) && Contains(s, GroupsPrefix)
    ensures Contains(ReplaceGroup(s, id), GroupsPrefix)
    ensures ReplaceGroup(ReplaceGroup(s, id), id) == ReplaceGroup(s, id)
  {
    var t := ReplaceGroup(s, id);
    match FirstSegment(s, 0)
    case None =>
      NoSegmentStays(s, id);
    case Some(p) =>
      var rest := s[RunEnd(s, p + 8)..];
      ExpandLiteral(id, s[p..RunEnd(s, p + 8)], s[..p], rest);
      assert t == s[..p] + GroupsPrefix + id + rest;
      ReplacedSegmentIsFirst(s, id, p, rest);
      SegmentEndsAfterId(s[..p], id, rest);
      assert t[p + 8..p + 8 + |id|] == id && t[p..p + 8] == GroupsPrefix;
      ReplaceSameId(t, id, p, p + 8 + |id|);
  }

  /** Replacing a `/groups/<id>` segment with the same literal id puts back what was there. */
  lemma ReplaceSameId(t: string, id: string, p: nat, e: nat)
    requires Literal(id) && p + 8 <= e <= |t|
    requires t[p..p + 8] == GroupsPrefix && t[p + 8..e] == id
    ensures t[..p] + GroupsPrefix + Expand(id, t[p..e], t[..p], t[e..]) + t[e..] == t
  {
    ExpandLiteral(id, t[p..e], t[..p], t[e..]);
    assert t[..p] + GroupsPrefix + id == t[..e] by {
      assert t[..e] == t[..p] + t[p..p + 8] + t[p + 8..e];
    }
    assert t == t[..e] + t[e..];
  }

  /** After the replacement the new segment sits where the old one did and is still the first. */
  lemma ReplacedSegmentIsFirst(s: string, id: string, p: nat, rest: string)
    requires SegmentId(id) && FirstSegment(s, 0) == Some(p)
    requires rest == s[RunEnd(s, p + 8)..]
    ensures var t := s[..p] + GroupsPrefix + id + rest;
            FirstSegment(t, 0) == Some(p) && Contains(t, GroupsPrefix)
  {
    var t := s[..p] + GroupsPrefix + id + rest;
    assert s[..p + 8] == s[..p] + GroupsPrefix by {
      assert s[p..p + 8] == GroupsPrefix;
    }
    assert t[..p + 8] == s[..p + 8];
    assert SegmentAt(t, p) by {
      assert t[p..p + 8] == GroupsPrefix;
      assert t[p + 8] == id[0];
    }
    ContainsAt(t, GroupsPrefix, p);
    SamePrefixSameSegments(s, t, p);
    FirstSegmentIs(t, p);
  }

  /** Two strings that agree up to `p + 8` have the pattern at the same places before `p`. */
  lemma SamePrefixSameSegments(s: string, t: string, p: nat)
    requires p + 8 <= |s| && p + 8 <= |t| && t[..p + 8] == s[..p + 8]
    ensures forall q :: 0 <= q < p ==> SegmentAt(t, q) == SegmentAt(s, q)
  {
    forall q | 0 <= q < p ensures SegmentAt(t, q) == SegmentAt(s, q) {
      assert t[q..q + 8] == t[..p + 8][q..q + 8] == s[..p + 8][q..q + 8] == s[q..q + 8];
      assert t[q + 8] == t[..p + 8][q + 8] == s[..p + 8][q + 8] == s[q + 8];
    }
  }

  /** The pattern matching at `p` and nowhere before makes `p` the first match. */
  lemma FirstSegmentIs(s: string, p: nat)
    requires SegmentAt(s, p) && forall q :: 0 <= q < p ==> !SegmentAt(s, q)
    ensures FirstSegment(s, 0) == Some(p)
  {
  }

  /** When the pattern is not found, the path is left unchanged and keeps its `/groups/`. */
  lemma NoSegmentStays(s: string, id: string)
    requires FirstSegment(s, 0).None? && Contains(s, GroupsPrefix)
    ensures ReplaceGroup(ReplaceGroup(s, id), id) == ReplaceGroup(s, id)
  {
  }
}
