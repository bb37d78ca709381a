/** The card-number step of the `extract credit card` route, from the OCR
    text on: `re.search(r'\b\d{4}\s?\d{4}\s?\d{4}\s?\d{4}\b', text)` and then
    `.replace(" ", "")` on the whole match. `\s?` is greedy, but giving its
    character back never helps: the next item is a digit, and no whitespace
    character is a digit. So at a given start there is at most one match. */
module Card {
  import opened Base
  import opened Text

  /** `\w` restricted to ASCII: letters, digits and the underscore. */
  predicate IsWordChar(c: char) {
    ('a' <= c <= 'z') || ('A' <= c <= 'Z') || IsDigit(c) || c == '_'
  }

  /** `\d{4}` at `p`. */
  predicate Digits4(t: string, p: nat) {
    p + 4 <= |t| && forall k :: p <= k < p + 4 ==> IsDigit(t[k])
  }

  /** `t[p..e]` is `n` groups of four digits, each group but the last
      followed by at most one whitespace character: `\d{4}(\s?\d{4}){n-1}`. */
  ghost predicate GroupsAt(t: string, p: nat, e: nat, n: nat)
    decreases n
  {
    if n <= 1 then n == 1 && Digits4(t, p) && e == p + 4
    else
      && Digits4(t, p)
      && (|| GroupsAt(t, p + 4, e, n - 1)
          || (p + 4 < |t| && IsSpace(t[p + 4]) && GroupsAt(t, p + 5, e, n - 1)))
  }

  /** `\b` before a digit at `s`: the text starts there or the character
      before is not a word character. */
  predicate BoundaryBefore(t: string, s: nat)
    requires s <= |t|
  {
    s == 0 || !IsWordChar(t[s - 1])
  }

  /** `\b` after a digit ending at `e`. */
  predicate BoundaryAfter(t: string, e: nat)
    requires e <= |t|
  {
    e == |t| || !IsWordChar(t[e])
  }

  /** The whole pattern matches `t[s..e]`. */
  ghost predicate IsCardMatch(t: string, s: int, e: int) {
    0 <= s <= e <= |t| && BoundaryBefore(t, s) && GroupsAt(t, s, e, 4) && BoundaryAfter(t, e)
  }

  /** The groups part at `p`, as the regex engine tries it: a whitespace
      character after a group is taken when there is one. */
  function Groups(t: string, p: nat, n: nat): (r: Option<nat>)
    requires n >= 1
    ensures r.Some? ==> p < r.value <= |t| && GroupsAt(t, p, r.value, n)
    ensures r.None? ==> forall e :: !GroupsAt(t, p, e, n)
    decreases n
  {
    if !Digits4(t, p) then None
    else if n == 1 then Some(p + 4)
    else if p + 4 < |t| && IsSpace(t[p + 4]) then
      assert !Digits4(t, p + 4);
      Groups(t, p + 5, n - 1)
    else Groups(t, p + 4, n - 1)
  }

  /** The groups from `p` end in one place only. */
  lemma {:induction false} GroupsAtUnique(t: string, p: nat, e1: nat, e2: nat, n: nat)
    requires GroupsAt(t, p, e1, n) && GroupsAt(t, p, e2, n)
    ensures e1 == e2
    decreases n
  {
    if n > 1 {
      if p + 4 < |t| && IsSpace(t[p + 4]) {
        assert !Digits4(t, p + 4);
        assert !GroupsAt(t, p + 4, e1, n - 1) && !GroupsAt(t, p + 4, e2, n - 1);
        GroupsAtUnique(t, p + 5, e1, e2, n - 1);
      } else {
        GroupsAtUnique(t, p + 4, e1, e2, n - 1);
      }
    }
  }

  /** `re.search` from start `s` on: the leftmost start with a match, and the
      end of that match. */
  function SearchFrom(t: string, s: nat): (r: Option<(nat, nat)>)
    requires s <= |t|
    ensures r.Some? ==> s <= r.value.0 && IsCardMatch(t, r.value.0, r.value.1)
    ensures r.Some? ==> forall s', e' :: s <= s' < r.value.0 ==> !IsCardMatch(t, s', e')
    ensures r.None? ==> forall s', e' :: s <= s' ==> !IsCardMatch(t, s', e')
    decreases |t| - s
  {
    var here := if BoundaryBefore(t, s) then Groups(t, s, 4) else None;
    if here.Some? && BoundaryAfter(t, here.value) then Some((s, here.value))
    else
      assert forall e' :: !IsCardMatch(t, s, e') by {
        forall e' | IsCardMatch(t, s, e') ensures false {
          GroupsAtUnique(t, s, e', here.value, 4);
        }
      }
      if s == |t| then None else SearchFrom(t, s + 1)
  }

  /** `m.replace(" ", "")`: only the space character goes; other whitespace
      stays. */
  function RemoveSpaces(m: string): (r: string)
    ensures ' ' !in r && |r| <= |m|
  {
    if m == [] then []
    else (if m[0] == ' ' then [] else [m[0]]) + RemoveSpaces(m[1..])
  }

  /** The card number written out: the matched text without its spaces. */
  function CardNumber(t: string): (r: Option<string>)
    ensures r.Some? ==> exists s, e :: IsCardMatch(t, s, e) && r.value == RemoveSpaces(t[s..e])
    ensures r.None? <==> forall s, e :: !IsCardMatch(t, s, e)
  {
    match SearchFrom(t, 0)
    case None => None
    case Some((s, e)) => Some(RemoveSpaces(t[s..e]))
  }

  /** `CardNumber` takes the leftmost match. */
  lemma CardNumberLeftmost(t: string, s: nat, e: nat)
    requires IsCardMatch(t, s, e)
    requires forall s', e' :: s' < s ==> !IsCardMatch(t, s', e')
    ensures CardNumber(t) == Some(RemoveSpaces(t[s..e]))
  {
    var r := SearchFrom(t, 0);
    assert r.Some?;
    var (s', e') := r.value;
    assert s' == s;
    GroupsAtUnique(t, s, e, e', 4);
  }

  predicate AllDigits(m: string) {
    forall k :: 0 <= k < |m| ==> IsDigit(m[k])
  }

  /** Removing the spaces leaves only digits exactly when every character is
      a digit or a space. */
  lemma {:induction false} RemoveSpacesDigits(m: string)
    ensures AllDigits(RemoveSpaces(m)) <==> forall k :: 0 <= k < |m| ==> IsDigit(m[k]) || m[k] == ' '
  {
    if m != [] {
      RemoveSpacesDigits(m[1..]);
      var head := if m[0] == ' ' then [] else [m[0]];
      var rest := RemoveSpaces(m[1..]);
      assert RemoveSpaces(m) == head + rest;
      assert forall k :: 0 <= k < |rest| ==> (head + rest)[|head| + k] == rest[k];
      assert forall k :: 1 <= k < |m| ==> m[k] == m[1..][k - 1];
    }
  }

  lemma {:induction false} RemoveSpacesConcat(a: string, b: string)
    ensures RemoveSpaces(a + b) == RemoveSpaces(a) + RemoveSpaces(b)
  {
    if a != [] {
      var head := if a[0] == ' ' then [] else [a[0]];
      assert (a + b)[0] == a[0] && (a + b)[1..] == a[1..] + b;
      RemoveSpacesConcat(a[1..], b);
      assert RemoveSpaces(a + b) == head + (RemoveSpaces(a[1..]) + RemoveSpaces(b));
    } else {
      assert a + b == b;
    }
  }

  lemma {:induction false} RemoveSpacesKeepsDigits(m: string)
    requires AllDigits(m)
    ensures RemoveSpaces(m) == m
  {
    if m != [] {
      RemoveSpacesKeepsDigits(m[1..]);
    }
  }

  /** The groups hold digits and whitespace only; when the whitespace is all
      spaces, removing it leaves `4 * n` digits. */
  lemma {:induction false} GroupsText(t: string, p: nat, e: nat, n: nat)
    requires GroupsAt(t, p, e, n)
    ensures p < e <= |t|
    ensures forall k :: p <= k < e ==> IsDigit(t[k]) || IsSpace(t[k])
    ensures (forall k :: p <= k < e ==> IsDigit(t[k]) || t[k] == ' ') ==> |RemoveSpaces(t[p..e])| == 4 * n
    decreases n
  {
    assert t[p..p + 4] == t[p..p + 4];
    RemoveSpacesKeepsDigits(t[p..p + 4]);
    if n > 1 {
      if GroupsAt(t, p + 4, e, n - 1) {
        GroupsText(t, p + 4, e, n - 1);
        assert t[p..e] == t[p..p + 4] + t[p + 4..e];
        RemoveSpacesConcat(t[p..p + 4], t[p + 4..e]);
      } else {
        GroupsText(t, p + 5, e, n - 1);
        assert t[p..e] == t[p..p + 4] + [t[p + 4]] + t[p + 5..e];
        RemoveSpacesConcat(t[p..p + 4] + [t[p + 4]], t[p + 5..e]);
        RemoveSpacesConcat(t[p..p + 4], [t[p + 4]]);
      }
    }
  }

  /** The number written out from a match is sixteen digits exactly when
      every separator the match took is a space or absent; a tab or a newline
      between groups stays in the output. */
  lemma CardSixteenDigits(t: string, s: nat, e: nat)
    requires IsCardMatch(t, s, e)
    ensures (AllDigits(RemoveSpaces(t[s..e])) && |RemoveSpaces(t[s..e])| == 16)
        <==> forall k :: s <= k < e ==> t[k] == ' ' || IsDigit(t[k])
  {
    GroupsText(t, s, e, 4);
    RemoveSpacesDigits(t[s..e]);
    assert forall k :: s <= k < e ==> t[k] == t[s..e][k - s];
  }

  lemma RemoveSpacesAround(x: string, sep: char, y: string)
    ensures RemoveSpaces(x + [sep] + y) == RemoveSpaces(x) + (if sep == ' ' then [] else [sep]) + RemoveSpaces(y)
  {
    RemoveSpacesConcat(x + [sep], y);
    RemoveSpacesConcat(x, [sep]);
    assert [sep][1..] == [];
  }

  /** Four groups at the start of the text, the first two apart by a tab and
      the others by spaces: the tab stays in the number written out. */
  lemma TabSurvives(a: string, b: string, c: string, d: string)
    requires |a| == |b| == |c| == |d| == 4
    requires AllDigits(a) && AllDigits(b) && AllDigits(c) && AllDigits(d)
    ensures CardNumber(a + "\t" + b + " " + c + " " + d) == Some(a + "\t" + b + c + d)
  {
    var t := a + "\t" + b + " " + c + " " + d;
    assert t[..4] == a && t[4] == '\t' && t[5..9] == b && t[9] == ' ';
    assert t[10..14] == c && t[14] == ' ' && t[15..19] == d && |t| == 19;
    assert GroupsAt(t, 15, 19, 1);
    assert GroupsAt(t, 10, 19, 2);
    assert GroupsAt(t, 5, 19, 3);
    assert GroupsAt(t, 0, 19, 4);
    CardNumberLeftmost(t, 0, 19);
    assert t[0..19] == t;
    RemoveSpacesKeepsDigits(a);
    RemoveSpacesKeepsDigits(b);
    RemoveSpacesKeepsDigits(c);
    RemoveSpacesKeepsDigits(d);
    var x1 := a + "\t" + b;
    var x2 := x1 + " " + c;
    RemoveSpacesAround(a, '\t', b);
    RemoveSpacesAround(x1, ' ', c);
    RemoveSpacesAround(x2, ' ', d);
    assert RemoveSpaces(x1) == a + "\t" + b;
    assert RemoveSpaces(x2) == a + "\t" + b + c;
    assert RemoveSpaces(t) == a + "\t" + b + c + d;
  }
}
