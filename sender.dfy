/** The `extract_sender_email` step: `re.search(r'From:.*<(.+?)>', text)`
    and its first group. `.` matches any character but a newline, so the
    whole match lies on one line. The regex engine tries start positions from
    the left; at a start, the greedy `.*` first takes the rest of the line and
    gives characters back one at a time, so the `<` it settles on is the last
    one on the line that can be followed by a group; the lazy group `(.+?)`
    takes one character and then grows only until a `>` follows it. */
module Sender {
  import opened Base
  import opened Text

  const Marker := "From:"

  /** No newline in `t[a..b]`. */
  predicate OneLine(t: string, a: int, b: int)
    requires 0 <= a && b <= |t|
  {
    forall k :: a <= k < b ==> t[k] != '\n'
  }

  /** `From:` at `s`, `.*` over `t[s + 5..q]`, `<` at `q`, the group
      `t[q + 1..g]` (at least one character) and `>` at `g`: a way the whole
      pattern matches. */
  ghost predicate IsMatch(t: string, s: int, q: int, g: int) {
    && 0 <= s && s + |Marker| <= q && q + 2 <= g < |t|
    && OccursAt(t, Marker, s)
    && OneLine(t, s + |Marker|, q) && t[q] == '<'
    && OneLine(t, q + 1, g) && t[g] == '>'
  }

  /** The match `re.search` reports: leftmost start, then the `<` the greedy
      `.*` reaches first (the rightmost), then the shortest group. */
  ghost predicate Preferred(t: string, s: int, q: int, g: int) {
    && IsMatch(t, s, q, g)
    && (forall s', q', g' :: IsMatch(t, s', q', g') ==> s <= s')
    && (forall q', g' :: IsMatch(t, s, q', g') ==> q' <= q)
    && (forall g' :: IsMatch(t, s, q, g') ==> g <= g')
  }

  /** The lazy group from `q + 1`: it has grown to `t[q + 1..g]`; stop at the
      first `>` that follows, unless a newline comes first. */
  function LazyFrom(t: string, q: nat, g: nat): (r: Option<nat>)
    requires q + 2 <= g && OneLine(t, q + 1, if g - 1 <= |t| then g - 1 else |t|)
    ensures r.Some? ==> g <= r.value < |t| && OneLine(t, q + 1, r.value) && t[r.value] == '>'
    ensures r.Some? ==> forall g' :: g <= g' < r.value ==> t[g'] != '>'
    ensures r.None? ==> forall g' :: g <= g' < |t| && OneLine(t, q + 1, g') ==> t[g'] != '>'
    decreases |t| - g
  {
    if g >= |t| then None
    else if t[g - 1] == '\n' then None
    else if t[g] == '>' then Some(g)
    else LazyFrom(t, q, g + 1)
  }

  /** The group after a `<` at `q`, if one closes on the same line. */
  function Lazy(t: string, q: nat): (r: Option<nat>)
    ensures r.Some? ==> q + 2 <= r.value < |t| && OneLine(t, q + 1, r.value) && t[r.value] == '>'
    ensures r.Some? ==> forall g' :: q + 2 <= g' < r.value ==> t[g'] != '>'
    ensures r.None? ==> forall g' :: q + 2 <= g' < |t| && OneLine(t, q + 1, g') ==> t[g'] != '>'
  {
    LazyFrom(t, q, q + 2)
  }

  /** The end of the line that starts at or before `p`: the first newline at
      or after `p`, or the end of the text. */
  function LineEnd(t: string, p: nat): (e: nat)
    requires p <= |t|
    ensures p <= e <= |t| && OneLine(t, p, e)
    ensures e < |t| ==> t[e] == '\n'
    decreases |t| - p
  {
    if p == |t| || t[p] == '\n' then p else LineEnd(t, p + 1)
  }

  /** The greedy `.*` from `p` giving back characters: try a `<` at `q`, then
      at `q - 1`, and so on down to `p`. */
  function GreedyFrom(t: string, s: nat, q: nat): (r: Option<(nat, nat)>)
    requires s + |Marker| <= q <= |t| && OccursAt(t, Marker, s) && OneLine(t, s + |Marker|, q)
    ensures r.Some? ==> s + |Marker| <= r.value.0 <= q && IsMatch(t, s, r.value.0, r.value.1)
    ensures r.Some? ==> forall q', g' :: r.value.0 < q' <= q && IsMatch(t, s, q', g') ==> false
    ensures r.Some? ==> forall g' :: IsMatch(t, s, r.value.0, g') ==> r.value.1 <= g'
    ensures r.None? ==> forall q', g' :: q' <= q && IsMatch(t, s, q', g') ==> false
    decreases q
  {
    var here := if q < |t| && t[q] == '<' then Lazy(t, q) else None;
    if here.Some? then Some((q, here.value))
    else if q == s + |Marker| then None
    else GreedyFrom(t, s, q - 1)
  }

  /** `re.search`: try each start position from `s` on. */
  function SearchFrom(t: string, s: nat): (r: Option<(nat, nat, nat)>)
    requires s <= |t|
    ensures r.Some? ==> s <= r.value.0 && IsMatch(t, r.value.0, r.value.1, r.value.2)
    ensures r.Some? ==> forall s', q', g' :: s <= s' < r.value.0 && IsMatch(t, s', q', g') ==> false
    ensures r.Some? ==> forall q', g' :: IsMatch(t, r.value.0, q', g') ==> q' <= r.value.1
    ensures r.Some? ==> forall g' :: IsMatch(t, r.value.0, r.value.1, g') ==> r.value.2 <= g'
    ensures r.None? ==> forall s', q', g' :: s <= s' && IsMatch(t, s', q', g') ==> false
    decreases |t| - s
  {
    var here :=
      if s + |Marker| <= |t| && OccursAt(t, Marker, s)
      then GreedyFrom(t, s, LineEnd(t, s + |Marker|))
      else None;
    if here.Some? then Some((s, here.value.0, here.value.1))
    else if s == |t| then None
    else SearchFrom(t, s + 1)
  }

  /** The sender address: the first group of the match `re.search` reports,
      or nothing when the pattern matches nowhere. */
  function ExtractSender(t: string): (r: Option<string>)
    ensures r.Some? ==> exists s, q, g :: Preferred(t, s, q, g) && r.value == t[q + 1..g]
    ensures r.None? <==> forall s, q, g :: !IsMatch(t, s, q, g)
  {
    match SearchFrom(t, 0)
    case None => None
    case Some((s, q, g)) =>
      assert Preferred(t, s, q, g);
      Some(t[q + 1..g])
  }

  /** Only one match is the preferred one. */
  lemma PreferredUnique(t: string, s: int, q: int, g: int, s': int, q': int, g': int)
    requires Preferred(t, s, q, g) && Preferred(t, s', q', g')
    ensures s == s' && q == q' && g == g'
  {
    assert s <= s' && s' <= s;
    assert q <= q' && q' <= q;
  }

  /** Whatever match is the preferred one, its group is the address. */
  lemma SenderOfPreferred(t: string, s: int, q: int, g: int)
    requires Preferred(t, s, q, g)
    ensures ExtractSender(t) == Some(t[q + 1..g])
  {
    var r := ExtractSender(t);
    assert r.Some?;
    var s', q', g' :| Preferred(t, s', q', g') && r.value == t[q' + 1..g'];
    PreferredUnique(t, s, q, g, s', q', g');
  }

  /** `['<'] + a + ['>']` stands in `t` at index `i`. */
  ghost predicate BracketedAt(t: string, a: string, i: int) {
    0 <= i && i + |a| + 2 <= |t| && t[i..i + |a| + 2] == ['<'] + a + ['>']
  }

  /** The address is not empty, lies on one line, and stands in the text
      between a `<` and a `>`. */
  lemma SenderShape(t: string, a: string)
    requires ExtractSender(t) == Some(a)
    ensures a != [] && '\n' !in a
    ensures exists i :: BracketedAt(t, a, i)
  {
    var s, q, g :| Preferred(t, s, q, g) && a == t[q + 1..g];
    assert forall k :: 0 <= k < |a| ==> a[k] == t[q + 1 + k] != '\n';
    assert t[q..g + 1] == ['<'] + a + ['>'];
    assert BracketedAt(t, a, q);
  }

  /** A header line `From:<name><<addr>>` at the top of the message yields
      `addr`, whatever follows on later lines. */
  lemma SenderOfHeader(name: string, addr: string, more: string)
    requires '<' !in name && '\n' !in name
    requires addr != [] && '<' !in addr && '>' !in addr && '\n' !in addr
    ensures ExtractSender(Marker + name + "<" + addr + ">\n" + more) == Some(addr)
  {
    var t := Marker + name + "<" + addr + ">\n" + more;
    var q := |Marker| + |name|;
    var g := q + 1 + |addr|;
    assert forall k :: |Marker| <= k < q ==> t[k] == name[k - |Marker|];
    assert forall k :: q < k < g ==> t[k] == addr[k - q - 1];
    assert t[q] == '<' && t[g] == '>' && t[g + 1] == '\n';
    assert t[..|Marker|] == Marker;
    assert t[q + 1..g] == addr;
    assert IsMatch(t, 0, q, g);
    SenderOfPreferred(t, 0, q, g);
  }
}
