/** The shape of a value returned by the host's `JSON.parse`, as far as the
    model needs to tell values apart, and the parser as an oracle. */
module JsonValues {
  import opened Wrappers

  /** A parsed JSON value. Numbers, booleans, `null` and objects are not
      inspected by the model and share the constructor `JOther`. */
  datatype Json = JString(s: string) | JArray(items: seq<Json>) | JOther

  /** What `JSON.parse` does with a text: return a value, or throw. A thrown
      `Error` carries its message; anything else thrown carries none. */
  datatype ParseOutcome = Parsed(value: Json) | Threw(message: Option<string>)

  /** The host parser. */
  type Parser = string -> ParseOutcome
}

/** FavoritesService: the set of favourite tool ids, kept in insertion order
    as a JavaScript `Set` is, and written to storage after every change. */
module Favorites {
  import opened Wrappers
  import opened Seqs
  import opened JsonValues

  /** `typeof x === 'string'` */
  predicate IsJString(v: Json) {
    v.JString?
  }

  /** `parsed.filter((x) => typeof x === 'string')` on a parsed array: the
      strings of the array, in array order. */
  function StringItems(items: seq<Json>): (r: seq<string>)
    ensures |r| <= |items|
    ensures forall id :: id in r <==> JString(id) in items
    ensures |r| == |Filter(IsJString, items)|
    ensures forall k :: 0 <= k < |r| ==> Filter(IsJString, items)[k] == JString(r[k])
  {
    if items == [] then []
    else
      assert forall v :: v in items <==> v == items[0] || v in items[1..];
      var rest := StringItems(items[1..]);
      var f := Filter(IsJString, items[1..]);
      if items[0].JString? then
        assert Filter(IsJString, items) == [items[0]] + f;
        [items[0].s] + rest
      else
        assert Filter(IsJString, items) == f;
        rest
  }

  /** `load`: the ids kept in storage. A missing or empty entry, a text the
      parser rejects and a parsed value that is not an array all give `[]`. */
  function LoadIds(stored: Option<string>, parse: Parser): (r: seq<string>)
    ensures stored.None? || stored.value == "" ==> r == []
    ensures stored.Some? && stored.value != "" ==>
      match parse(stored.value)
      case Threw(_) => r == []
      case Parsed(v) => r == if v.JArray? then StringItems(v.items) else []
    ensures forall id :: id in r ==>
      stored.Some? && parse(stored.value).Parsed? && parse(stored.value).value.JArray? &&
      JString(id) in parse(stored.value).value.items
    ensures stored.Some? && stored.value != "" && parse(stored.value).Parsed? &&
            parse(stored.value).value.JArray? ==>
      forall id :: JString(id) in parse(stored.value).value.items ==> id in r
  {
    if stored.None? || stored.value == "" then []
    else
      match parse(stored.value)
      case Threw(_) => []
      case Parsed(v) => if v.JArray? then StringItems(v.items) else []
  }

  /** `Set.prototype.delete`: the others keep their order. */
  function Removed(ids: seq<string>, id: string): (r: seq<string>)
    ensures forall x :: x in r <==> x in ids && x != id
  {
    Filter((x: string) => x != id, ids)
  }

  /** The set after `toggle(id)`: removed when present, appended when absent. */
  function Toggled(ids: seq<string>, id: string): (r: seq<string>)
    requires NoDup(ids)
    ensures NoDup(r)
    ensures id in r <==> id !in ids
    ensures forall x :: x != id ==> (x in r <==> x in ids)
  {
    if id in ids then
      FilterNoDup((x: string) => x != id, ids);
      Removed(ids, id)
    else ids + [id]
  }

  /** Toggling twice restores the same set of ids; when the id was absent it
      restores the very same sequence, and when it was present the id moves to
      the end. */
  lemma {:induction false} ToggleTwice(ids: seq<string>, id: string)
    requires NoDup(ids)
    ensures forall x :: x in Toggled(Toggled(ids, id), id) <==> x in ids
    ensures id !in ids ==> Toggled(Toggled(ids, id), id) == ids
    ensures id in ids ==> Toggled(Toggled(ids, id), id) == Removed(ids, id) + [id]
  {
    if id !in ids {
      var p := (x: string) => x != id;
      FilterSnoc(p, ids, id);
      FilterKeepsAll(p, ids);
    }
  }

  class FavoritesService {
    /** The `favorites` Set, in insertion order. */
    var favorites: seq<string>
    /** The id list last written to storage; `None` before the first write. */
    ghost var saved: Option<seq<string>>

    ghost predicate Valid()
      reads this
    {
      NoDup(favorites)
    }

    /** The field initialiser `new Set<string>(this.load())`. */
    constructor (stored: Option<string>, parse: Parser)
      ensures Valid()
      ensures favorites == Distinct(LoadIds(stored, parse))
      ensures saved == None
    {
      favorites := Distinct(LoadIds(stored, parse));
      saved := None;
    }

    /** `isFavorite`: set membership. */
    function IsFavorite(id: string): (b: bool)
      reads this
      ensures b <==> id in favorites
    {
      id in favorites
    }

    /** `getAllIds`: the ids without duplicates, in insertion order. */
    function GetAllIds(): (r: seq<string>)
      reads this
      requires Valid()
      ensures NoDup(r)
      ensures forall id :: id in r <==> IsFavorite(id)
    {
      favorites[..]
    }

    /** `toggle`: flips membership of `id`, leaves every other id alone, and
        writes the new list to storage. */
    method Toggle(id: string)
      requires Valid()
      modifies this
      ensures Valid()
      ensures favorites == Toggled(old(favorites), id)
      ensures IsFavorite(id) == !old(IsFavorite(id))
      ensures forall x :: x != id ==> IsFavorite(x) == old(IsFavorite(x))
      ensures saved == Some(GetAllIds())
    {
      if id in favorites {
        FilterNoDup((x: string) => x != id, favorites);
        favorites := Removed(favorites, id);
      } else {
        favorites := favorites + [id];
      }
      Save();
    }

    /** `save`: the storage write, kept as the ghost `saved`. */
    method Save()
      requires Valid()
      modifies this`saved
      ensures saved == Some(GetAllIds())
    {
      saved := Some(GetAllIds());
    }
  }
}
