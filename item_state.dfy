/** The three kinds of item event and their names in the `item_event_type`
    table: `ItemState::as_str` encodes, `From<String>` decodes. */
module ItemStates {
  import opened Common

  datatype ItemState = Checked | Unchecked | Deleted

  /** The name stored for a state; decoding it gives the state back. */
  function AsStr(s: ItemState): (name: string)
    ensures name != [] && FromName(name) == Some(s)
  {
    match s
    case Checked => "Checked"
    case Unchecked => "Unchecked"
    case Deleted => "Deleted"
  }

  /** Decoding a name; the source panics on any other string, modelled as
      `None`. */
  function FromName(name: string): (r: Option<ItemState>)
    ensures r.Some? <==> name in {"Checked", "Unchecked", "Deleted"}
  {
    if name == "Checked" then Some(Checked)
    else if name == "Unchecked" then Some(Unchecked)
    else if name == "Deleted" then Some(Deleted)
    else None
  }

  /** Decoding the name of a state gives the state back. */
  lemma RoundTrip(s: ItemState)
    ensures FromName(AsStr(s)) == Some(s)
  {
  }

  /** Encoding is injective: the three names are distinct. */
  lemma NamesDistinct(s: ItemState, t: ItemState)
    ensures AsStr(s) == AsStr(t) <==> s == t
  {
  }

  /** Whatever decodes is the name of the state it decodes to, so decoding
      and encoding are mutually inverse on the three names. */
  lemma DecodedNameIsCanonical(name: string)
    requires FromName(name).Some?
    ensures AsStr(FromName(name).value) == name
  {
  }
}
