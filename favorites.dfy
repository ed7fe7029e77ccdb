/** The favourites store (`useFavorites`): a list of product ids kept in memory and
    mirrored, after every change, into one local-storage slot. */
module UseFavorites {
  import opened Catalog
  import Seqs

  const StorageKey: string := "product-explorer:favorites"

  /** A JavaScript number: finite, or one of NaN, +Infinity, -Infinity. */
  datatype Num = Finite(value: real) | NonFinite

  /** A value `JSON.parse` can return. Of an object only one thing matters here:
      whether it has an own `toString` key, whose (never callable) value hides
      `Object.prototype.toString`. */
  datatype Json =
    | JNull
    | JBool(b: bool)
    | JNum(n: Num)
    | JStr(s: string)
    | JArray(items: seq<Json>)
    | JObject(ownToString: bool)

  /** Converting `x` to a number or to text throws a TypeError: `x` is, or an array
      inside it holds at any depth, an object with an own `toString` key. Neither
      `valueOf` nor `toString` then gives a primitive, and `join` converts every
      element of an array however many there are. */
  predicate Throws(x: Json) {
    match x
    case JObject(ownToString) => ownToString
    case JArray(items) => exists k :: 0 <= k < |items| && Throws(items[k])
    case _ => false
  }

  /** The storage slot as `readIds` sees it: no item, an empty string, text
      `JSON.parse` rejects, or the value it parses to. */
  datatype Slot = Absent | Empty | Unparsable | Doc(value: Json)

  /** `Number(String(x))` where `x` is an array element being joined: `null`
      contributes "", a boolean "true"/"false", a number its own digits, a nested
      array its join, any other object "[object Object]". `stringToNumber` is
      JavaScript's StringToNumber, left abstract. Defined where the conversion
      does not throw. */
  function JoinedToNumber(x: Json, stringToNumber: string -> Num): (n: Num)
    requires !Throws(x)
    ensures x.JNum? ==> n == x.n
    ensures x.JBool? || x.JObject? ==> n.NonFinite?
    ensures x.JArray? && |x.items| >= 2 ==> n.NonFinite?
    ensures x.JArray? && |x.items| == 1 ==> n == JoinedToNumber(x.items[0], stringToNumber)
  {
    match x
    case JNull => Finite(0.0)
    case JBool(_) => NonFinite
    case JNum(n) => n
    case JStr(s) => stringToNumber(s)
    case JArray(items) =>
      if |items| == 0 then Finite(0.0)
      else if |items| == 1 then JoinedToNumber(items[0], stringToNumber)
      else NonFinite
    case JObject(_) => NonFinite
  }

  /** `typeof x === "number" ? x : Number(x)` (line 15). An array converts through
      its joined text: none gives "", one element its own text, two or more a
      comma, which no number contains. An object without its own `toString` reads
      as "[object Object]". Defined where `Number` does not throw. */
  function ToNumber(x: Json, stringToNumber: string -> Num): (n: Num)
    requires !Throws(x)
    ensures x.JNum? ==> n == x.n
    ensures x.JNull? ==> n == Finite(0.0)
    ensures x.JBool? ==> n == Finite(if x.b then 1.0 else 0.0)
    ensures x.JObject? ==> n.NonFinite?
  {
    match x
    case JNull => Finite(0.0)
    case JBool(b) => Finite(if b then 1.0 else 0.0)
    case JNum(n) => n
    case JStr(s) => stringToNumber(s)
    case JArray(_) => JoinedToNumber(x, stringToNumber)
    case JObject(_) => NonFinite
  }

  /** Lines 14-16: convert each element, keep the finite ones, in order. Defined
      where no element throws. */
  function Coerce(items: seq<Json>, stringToNumber: string -> Num): (r: seq<real>)
    requires forall x :: x in items ==> !Throws(x)
    ensures |r| <= |items|
    ensures forall v :: v in r ==> exists x :: x in items && ToNumber(x, stringToNumber) == Finite(v)
    ensures forall k :: 0 <= k < |items| && ToNumber(items[k], stringToNumber).Finite? ==>
                          ToNumber(items[k], stringToNumber).value in r
  {
    if items == [] then []
    else
      var n := ToNumber(items[0], stringToNumber);
      var rest := Coerce(items[1..], stringToNumber);
      assert forall x :: x in items[1..] ==> x in items;
      assert forall k :: 0 < k < |items| ==> items[k] == items[1..][k - 1];
      (if n.Finite? then [n.value] else []) + rest
  }

  /** `Number.isFinite`. */
  predicate IsFinite(n: Num): (b: bool)
    ensures b <==> n != NonFinite
  {
    n.Finite?
  }

  /** The `map` stage of lines 14-15: every element converted, in place. */
  function Converted(items: seq<Json>, stringToNumber: string -> Num): (r: seq<Num>)
    requires forall x :: x in items ==> !Throws(x)
    ensures |r| == |items|
    ensures forall k :: 0 <= k < |items| ==> r[k] == ToNumber(items[k], stringToNumber)
  {
    seq(|items|, k requires 0 <= k < |items| => ToNumber(items[k], stringToNumber))
  }

  /** The numbers a list of finite JavaScript numbers stands for. */
  function Values(ns: seq<Num>): (r: seq<real>)
    requires forall n :: n in ns ==> n.Finite?
    ensures |r| == |ns|
    ensures forall k :: 0 <= k < |ns| ==> Finite(r[k]) == ns[k]
  {
    assert forall k :: 0 <= k < |ns| ==> ns[k] in ns;
    seq(|ns|, k requires 0 <= k < |ns| => ns[k].value)
  }

  lemma ConvertedCons(items: seq<Json>, stringToNumber: string -> Num)
    requires items != [] && forall x :: x in items ==> !Throws(x)
    ensures Converted(items, stringToNumber)
         == [ToNumber(items[0], stringToNumber)] + Converted(items[1..], stringToNumber)
  {
    var c := Converted(items, stringToNumber);
    var c' := Converted(items[1..], stringToNumber);
    assert forall k :: 0 < k < |items| ==> c[k] == c'[k - 1];
  }

  lemma ValuesCons(n: Num, ns: seq<Num>)
    requires n.Finite? && forall m :: m in ns ==> m.Finite?
    ensures Values([n] + ns) == [n.value] + Values(ns)
  {
  }

  /** `Coerce` is the source's two stages, `map` then `filter(Number.isFinite)`: so
      every finite conversion is kept, with its copies and in array order
      (`Seqs.FilterCount`, `Seqs.FilterIsSubsequence`). */
  lemma {:induction false} CoerceIsMapFilter(items: seq<Json>, stringToNumber: string -> Num)
    requires forall x :: x in items ==> !Throws(x)
    ensures Coerce(items, stringToNumber) == Values(Seqs.Filter(Converted(items, stringToNumber), IsFinite))
  {
    if items != [] {
      var n := ToNumber(items[0], stringToNumber);
      var c' := Converted(items[1..], stringToNumber);
      ConvertedCons(items, stringToNumber);
      Seqs.FilterCons(n, c', IsFinite);
      CoerceIsMapFilter(items[1..], stringToNumber);
      if IsFinite(n) {
        ValuesCons(n, Seqs.Filter(c', IsFinite));
      }
    }
  }

  /** Conversion works element by element, so it keeps the order of the array. */
  lemma {:induction false} CoerceAppend(a: seq<Json>, b: seq<Json>, stringToNumber: string -> Num)
    requires forall x :: x in a + b ==> !Throws(x)
    ensures Coerce(a + b, stringToNumber) == Coerce(a, stringToNumber) + Coerce(b, stringToNumber)
  {
    if a == [] {
      assert a + b == b;
    } else {
      assert (a + b)[0] == a[0];
      assert (a + b)[1..] == a[1..] + b;
      CoerceAppend(a[1..], b, stringToNumber);
    }
  }

  /** `readIds`: never fails; anything but a parsed array reads as no favourites,
      and so does an array with an element whose conversion throws (the `catch`). */
  function ReadIds(slot: Slot, stringToNumber: string -> Num): (r: seq<real>)
    ensures !(slot.Doc? && slot.value.JArray?) ==> r == []
    ensures slot.Doc? && slot.value.JArray? && (exists x :: x in slot.value.items && Throws(x)) ==> r == []
    ensures slot.Doc? && slot.value.JArray? && (forall x :: x in slot.value.items ==> !Throws(x)) ==>
      && r == Coerce(slot.value.items, stringToNumber)
      && r == Values(Seqs.Filter(Converted(slot.value.items, stringToNumber), IsFinite))
  {
    match slot
    case Doc(JArray(items)) =>
      if exists x :: x in items && Throws(x) then []
      else
        CoerceIsMapFilter(items, stringToNumber);
        Coerce(items, stringToNumber)
    case _ => []
  }

  /** `[1,{"toString":0}]` and `[[{"toString":0}]]` read as no favourites, while
      `[1,{}]` reads as `[1]`. */
  lemma OwnToStringEmptiesRead(stringToNumber: string -> Num)
    ensures ReadIds(Doc(JArray([JNum(Finite(1.0)), JObject(true)])), stringToNumber) == []
    ensures ReadIds(Doc(JArray([JArray([JObject(true)])])), stringToNumber) == []
    ensures ReadIds(Doc(JArray([JNum(Finite(1.0)), JObject(false)])), stringToNumber) == [1.0]
  {
    var a := [JNum(Finite(1.0)), JObject(true)];
    assert Throws(a[1]);
    var inner := JArray([JObject(true)]);
    assert Throws(inner.items[0]);
    assert [inner][0] == inner;
    var b := [JNum(Finite(1.0)), JObject(false)];
    assert forall x :: x in b ==> !Throws(x);
    assert b[1..] == [JObject(false)];
    assert b[1..][1..] == [];
  }

  /** What `writeIds` leaves in the slot: `JSON.stringify(ids)`, as `JSON.parse`
      reads it back. */
  function Encode(ids: seq<real>): (r: Slot)
    ensures r.Doc? && r.value.JArray? && |r.value.items| == |ids|
    ensures forall k :: 0 <= k < |ids| ==> r.value.items[k] == JNum(Finite(ids[k]))
  {
    Doc(JArray(seq(|ids|, i requires 0 <= i < |ids| => JNum(Finite(ids[i])))))
  }

  /** Reading back what was written gives the same list, in the same order. */
  lemma {:induction false} ReadEncodeRoundTrip(ids: seq<real>, stringToNumber: string -> Num)
    ensures ReadIds(Encode(ids), stringToNumber) == ids
  {
    var items := Encode(ids).value.items;
    assert forall x :: x in items ==> x.JNum?;
    if ids != [] {
      ReadEncodeRoundTrip(ids[1..], stringToNumber);
      assert items[1..] == Encode(ids[1..]).value.items;
    }
  }

  /** `prev.filter(x => x !== id)`. */
  function Without(ids: seq<real>, id: real): (r: seq<real>)
    ensures id !in r
    ensures forall x :: x != id ==> multiset(r)[x] == multiset(ids)[x]
    ensures Seqs.Subsequence(r, ids)
  {
    Seqs.FilterCount(ids, x => x != id);
    Seqs.FilterIsSubsequence(ids, x => x != id);
    Seqs.Filter(ids, x => x != id)
  }

  /** The next list of `toggle` (line 45): an absent id is appended, a present
      one removed everywhere. */
  function NextIds(prev: seq<real>, id: real): (r: seq<real>)
    ensures (id in r) <==> (id !in prev)
    ensures forall x :: x != id ==> (x in r <==> x in prev)
    ensures id !in prev ==> r == prev + [id]
  {
    if id in prev then Without(prev, id) else prev + [id]
  }

  /** Toggling leaves the other ids as they were: same ones, same order, same count. */
  lemma ToggleKeepsOthers(prev: seq<real>, id: real)
    ensures Without(NextIds(prev, id), id) == Without(prev, id)
  {
    if id in prev {
      Seqs.FilterIdempotent(prev, x => x != id);
    } else {
      Seqs.FilterAppend(prev, [id], x => x != id);
    }
  }

  /** Toggling an absent id twice restores the list exactly, and with it the
      stored text. */
  lemma ToggleTwiceRestores(prev: seq<real>, id: real)
    requires id !in prev
    ensures NextIds(NextIds(prev, id), id) == prev
    ensures Encode(NextIds(NextIds(prev, id), id)) == Encode(prev)
  {
    Seqs.FilterAppend(prev, [id], x => x != id);
    Seqs.FilterAllPass(prev, x => x != id);
  }

  /** Toggling a present id twice restores membership but moves the id to the end. */
  lemma ToggleTwiceMovesToEnd(prev: seq<real>, id: real)
    requires id in prev
    ensures NextIds(NextIds(prev, id), id) == Without(prev, id) + [id]
  {
  }

  /** `toggle` keeps the list free of duplicates. */
  lemma ToggleNoDuplicates(prev: seq<real>, id: real)
    requires Seqs.NoDuplicates(prev)
    ensures Seqs.NoDuplicates(NextIds(prev, id))
  {
    if id in prev {
      Seqs.FilterNoDuplicates(prev, x => x != id);
    }
  }

  /** The state of one `useFavorites` instance: `ids` is its `useState`, `stored`
      the storage slot under `StorageKey`. */
  class FavoritesStore {
    var ids: seq<real>
    var stored: Slot

    /** `useState(() => readIds())`. */
    constructor (slot: Slot, stringToNumber: string -> Num)
      ensures stored == slot && ids == ReadIds(slot, stringToNumber)
    {
      stored := slot;
      ids := ReadIds(slot, stringToNumber);
    }

    /** `favoriteSet = new Set(ids)`. */
    function FavoriteSet(): (r: set<real>)
      reads this
      ensures forall x :: x in r <==> x in ids
    {
      set x | x in ids
    }

    /** `isFavorite(id) = favoriteSet.has(id)`. */
    function IsFavorite(id: real): (r: bool)
      reads this
      ensures r <==> id in ids
    {
      id in FavoriteSet()
    }

    /** `writeIds`. */
    method WriteIds(next: seq<real>)
      modifies this`stored
      ensures stored == Encode(next)
    {
      stored := Encode(next);
    }

    /** `toggle(id)`: the next list is written to storage and becomes `ids`. */
    method Toggle(id: real)
      modifies this
      ensures ids == NextIds(old(ids), id)
      ensures stored == Encode(ids)
      ensures Seqs.NoDuplicates(old(ids)) ==> Seqs.NoDuplicates(ids)
    {
      var next := NextIds(ids, id);
      WriteIds(next);
      ids := next;
      if Seqs.NoDuplicates(old(ids)) {
        ToggleNoDuplicates(old(ids), id);
      }
    }

    /** `clear()`: storage and memory both become empty. */
    method Clear()
      modifies this
      ensures ids == [] && stored == Encode([])
    {
      WriteIds([]);
      ids := [];
    }

    /** The `storage` listener: `key` is the event's key, `None` when another tab
        cleared the whole storage. Only this store's key reloads `ids`. */
    method OnStorage(key: Option<string>, stringToNumber: string -> Num)
      modifies this`ids
      ensures key == Some(StorageKey) ==> ids == ReadIds(stored, stringToNumber)
      ensures key != Some(StorageKey) ==> ids == old(ids)
    {
      if key == Some(StorageKey) {
        ids := ReadIds(stored, stringToNumber);
      }
    }
  }
}
