/** The `sort_contacts` action: the records of `contacts.json` sorted by
    Python's stable `sorted` with the key
    `(c["last_name"].lower(), c["first_name"].lower())`. Python computes every
    key before it sorts, so one bad record makes the whole action fail. */
module Contacts {
  import opened Base
  import opened Text
  import opened Sorting

  /** A name field of a JSON record: absent, a JSON string, or some other JSON
      value (a number, `null`, a list, ...), which has no `.lower()`. */
  datatype Field = Absent | Text(text: string) | NotText

  /** A contact record. `others` stands for the record's remaining fields,
      which the sort carries along untouched. */
  datatype Contact = Contact(lastName: Field, firstName: Field, others: string)

  datatype Which = LastName | FirstName

  /** Why a key could not be computed: the record has no such field
      (`KeyError`) or its value is not a string (`AttributeError`). */
  datatype Problem = MissingField | NoLower

  /** The record at `index` failed on field `field`. */
  datatype KeyFailure = KeyFailure(index: nat, field: Which, problem: Problem)

  /** Python's `<` on strings: lexicographic by code point, a proper prefix
      first. */
  predicate StrLess(a: string, b: string) {
    if b == [] then false
    else if a == [] then true
    else if a[0] != b[0] then a[0] < b[0]
    else StrLess(a[1..], b[1..])
  }

  lemma {:induction false} StrLessIrreflexive(a: string)
    ensures !StrLess(a, a)
  {
    if a != [] {
      StrLessIrreflexive(a[1..]);
    }
  }

  lemma {:induction false} StrLessTransitive(a: string, b: string, c: string)
    requires StrLess(a, b) && StrLess(b, c)
    ensures StrLess(a, c)
  {
    if a != [] && a[0] == b[0] && b[0] == c[0] {
      StrLessTransitive(a[1..], b[1..], c[1..]);
    }
  }

  lemma {:induction false} StrLessTotal(a: string, b: string)
    requires a != b
    ensures StrLess(a, b) || StrLess(b, a)
  {
    if a != [] && b != [] && a[0] == b[0] {
      assert a == [a[0]] + a[1..] && b == [b[0]] + b[1..];
      StrLessTotal(a[1..], b[1..]);
    }
  }

  /** The sort key, a pair of lowered names compared as Python compares
      tuples. */
  type Key = (string, string)

  predicate KeyLess(a: Key, b: Key) {
    StrLess(a.0, b.0) || (a.0 == b.0 && StrLess(a.1, b.1))
  }

  lemma KeyLessIsOrder()
    ensures StrictTotalOrder(KeyLess)
  {
    forall a: Key ensures !KeyLess(a, a) {
      StrLessIrreflexive(a.0);
      StrLessIrreflexive(a.1);
    }
    forall a: Key, b: Key, c: Key | KeyLess(a, b) && KeyLess(b, c) ensures KeyLess(a, c) {
      if StrLess(a.0, b.0) && StrLess(b.0, c.0) {
        StrLessTransitive(a.0, b.0, c.0);
      } else if a.0 == b.0 && b.0 == c.0 {
        StrLessTransitive(a.1, b.1, c.1);
      }
    }
    forall a: Key, b: Key | a != b ensures KeyLess(a, b) || KeyLess(b, a) {
      if a.0 != b.0 {
        StrLessTotal(a.0, b.0);
      } else {
        StrLessTotal(a.1, b.1);
      }
    }
  }

  /** One field's part of the key: its lowered text, or the error Python
      raises when it looks the field up and calls `.lower()`. */
  function FieldKey(f: Field): (r: Result<string, Problem>)
    ensures r.Ok? <==> f.Text?
    ensures r.Ok? ==> |r.value| == |f.text|
    ensures r.Err? ==> (r.error == MissingField <==> f.Absent?)
  {
    match f
    case Absent => Err(MissingField)
    case NotText => Err(NoLower)
    case Text(s) => Ok(Lower(s))
  }

  /** The key of one record. The tuple's first component, `last_name`, is
      evaluated first, so its error is the one raised when both fields are
      bad. */
  function KeyOf(c: Contact): (r: Result<Key, (Which, Problem)>)
    ensures r.Ok? <==> c.lastName.Text? && c.firstName.Text?
    ensures r.Ok? ==> r.value == (Lower(c.lastName.text), Lower(c.firstName.text))
    ensures r.Err? ==> (r.error.0 == LastName <==> !c.lastName.Text?)
  {
    match FieldKey(c.lastName)
    case Err(p) => Err((LastName, p))
    case Ok(last) =>
      match FieldKey(c.firstName)
      case Err(p) => Err((FirstName, p))
      case Ok(first) => Ok((last, first))
  }

  predicate HasKey(c: Contact) {
    c.lastName.Text? && c.firstName.Text?
  }

  /** The keys of all records, computed in input order as `sorted` does
      before it compares anything. */
  function SortKeys(cs: seq<Contact>): (r: Result<seq<Key>, KeyFailure>)
    ensures r.Ok? <==> forall k :: 0 <= k < |cs| ==> HasKey(cs[k])
    ensures r.Ok? ==> |r.value| == |cs| && forall k :: 0 <= k < |cs| ==> KeyOf(cs[k]) == Ok(r.value[k])
    ensures r.Err? ==> r.error.index < |cs| && !HasKey(cs[r.error.index])
    ensures r.Err? ==> forall k :: 0 <= k < r.error.index ==> HasKey(cs[k])
    ensures r.Err? ==> KeyOf(cs[r.error.index]) == Err((r.error.field, r.error.problem))
  {
    if cs == [] then Ok([])
    else
      match KeyOf(cs[0])
      case Err((field, problem)) => Err(KeyFailure(0, field, problem))
      case Ok(key) =>
        match SortKeys(cs[1..])
        case Err(e) => Err(KeyFailure(e.index + 1, e.field, e.problem))
        case Ok(keys) => Ok([key] + keys)
  }

  /** `sorted(contacts, key=...)`: the records in the stable order of their
      keys, or the failure of the first record whose key cannot be computed. */
  function SortContacts(cs: seq<Contact>): (r: Result<seq<Contact>, KeyFailure>)
    ensures r.Err? <==> exists k :: 0 <= k < |cs| && !HasKey(cs[k])
    ensures r.Err? ==> r == Err(SortKeys(cs).error)
    ensures r.Ok? ==> |r.value| == |cs|
  {
    match SortKeys(cs)
    case Err(e) => Err(e)
    case Ok(keys) =>
      KeyLessIsOrder();
      Ok(Arrange(cs, StableSort(keys, KeyLess)))
  }

  /** The sorted records are the input records, rearranged by the one order
      that a stable sort by key allows. */
  lemma SortContactsStable(cs: seq<Contact>)
    requires SortContacts(cs).Ok?
    ensures SortKeys(cs).Ok?
    ensures exists order :: StablySorted(SortKeys(cs).value, KeyLess, order)
                         && Indexes(cs, order)
                         && SortContacts(cs).value == Arrange(cs, order)
  {
    var keys := SortKeys(cs).value;
    KeyLessIsOrder();
    var order := StableSort(keys, KeyLess);
    assert StablySorted(keys, KeyLess, order) && Indexes(cs, order);
  }

  /** The output holds the same records as the input, each as often. */
  lemma SortContactsPermutes(cs: seq<Contact>)
    requires SortContacts(cs).Ok?
    ensures multiset(SortContacts(cs).value) == multiset(cs)
  {
    var keys := SortKeys(cs).value;
    KeyLessIsOrder();
    ArrangePermutes(keys, KeyLess, cs, StableSort(keys, KeyLess));
  }

  /** The records written are the records read, each as often, every one
      with a key, and their keys never decrease. */
  lemma SortContactsSorted(cs: seq<Contact>, sorted: seq<Contact>)
    requires SortContacts(cs) == Ok(sorted)
    ensures multiset(sorted) == multiset(cs)
    ensures forall p :: 0 <= p < |sorted| ==> HasKey(sorted[p])
    ensures forall p, q :: 0 <= p < q < |sorted| && HasKey(sorted[p]) && HasKey(sorted[q]) ==>
              !KeyLess(KeyOf(sorted[q]).value, KeyOf(sorted[p]).value)
  {
    SortContactsPermutes(cs);
    forall p | 0 <= p < |sorted|
      ensures HasKey(sorted[p])
    {
      assert sorted[p] in multiset(cs);
    }
    forall p, q | 0 <= p < q < |sorted|
      ensures !KeyLess(KeyOf(sorted[q]).value, KeyOf(sorted[p]).value)
    {
      SortContactsOrdered(cs, p, q);
    }
  }

  /** Every record in the output has a key, and keys never decrease. */
  lemma SortContactsOrdered(cs: seq<Contact>, p: nat, q: nat)
    requires SortContacts(cs).Ok? && p < q < |cs|
    ensures HasKey(SortContacts(cs).value[p]) && HasKey(SortContacts(cs).value[q])
    ensures !KeyLess(KeyOf(SortContacts(cs).value[q]).value, KeyOf(SortContacts(cs).value[p]).value)
  {
    var keys := SortKeys(cs).value;
    KeyLessIsOrder();
    var order := StableSort(keys, KeyLess);
    ArrangeAt(cs, order, p);
    ArrangeAt(cs, order, q);
    StablyOrdered(keys, KeyLess, order, p, q);
  }

  /** Two keys in descending order are sorted by swapping them. */
  lemma SortTwoKeys(keys: seq<Key>)
    requires |keys| == 2 && KeyLess(keys[1], keys[0])
    ensures StrictTotalOrder(KeyLess)
    ensures StableSort(keys, KeyLess) == [1, 0]
  {
    KeyLessIsOrder();
    assert StablySorted(keys, KeyLess, [1, 0]) by {
      assert Range(2) == [0, 1];
      assert multiset([1, 0]) == multiset(Range(2));
    }
    StableSortUnique(keys, KeyLess, StableSort(keys, KeyLess), [1, 0]);
  }

  /** Two records whose keys are in descending order trade places. */
  lemma SortSwapsTwo(a: Contact, b: Contact)
    requires HasKey(a) && HasKey(b) && KeyLess(KeyOf(b).value, KeyOf(a).value)
    ensures SortContacts([a, b]) == Ok([b, a])
  {
    var cs := [a, b];
    var keys := SortKeys(cs).value;
    assert keys == [KeyOf(a).value, KeyOf(b).value];
    SortTwoKeys(keys);
    assert [1, 0][1..] == [0] && [0][1..] == [];
    assert Arrange(cs, [0]) == [a];
    assert Arrange(cs, [1, 0]) == [b, a];
  }

  /** The key lowers case before comparing: "alpha" goes before "Zeta",
      although 'Z' comes before 'a' in the character order. */
  lemma SortExample()
    ensures SortContacts([Contact(Text("Zeta"), Text("Bob"), ""), Contact(Text("alpha"), Text("Amy"), "")])
         == Ok([Contact(Text("alpha"), Text("Amy"), ""), Contact(Text("Zeta"), Text("Bob"), "")])
  {
    assert Lower("alpha")[0] == 'a';
    assert Lower("Zeta")[0] == 'z';
    SortSwapsTwo(Contact(Text("Zeta"), Text("Bob"), ""), Contact(Text("alpha"), Text("Amy"), ""));
  }

  /** The first bad record decides the error, and `last_name` is looked up
      before `first_name`. */
  lemma FailureExample()
    ensures SortContacts([Contact(Text("a"), Text("b"), ""), Contact(Absent, NotText, ""), Contact(Text("c"), Absent, "")])
         == Err(KeyFailure(1, LastName, MissingField))
  {
  }
}
