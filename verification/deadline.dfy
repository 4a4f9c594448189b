/** The deadline text codec of the edit page. The editor holds a minute-precision
    `datetime-local` value such as `2024-05-01T09:30`; the wire carries the same
    text with `:00Z` appended. No time-zone conversion happens in either
    direction: the codec is purely textual. */
module Deadline {
  import opened Values

  /** The fixed suffix that turns an editor value into a wire timestamp. */
  const Suffix: string := ":00Z"

  /** The `limit` field of an update payload: explicit `null`, or a timestamp. */
  datatype WireLimit = Null | Stamp(text: string)

  /** True when `w` ends with the suffix, i.e. when the regular expression
      `/:00Z$/` (no multiline flag) matches `w`. */
  predicate HasSuffix(w: string)
  {
    |w| >= |Suffix| && w[|w| - |Suffix|..] == Suffix
  }

  /** `w.replace(/:00Z$/, '')`: removes one trailing suffix, if there is one. */
  function Strip(w: string): (r: string)
    ensures HasSuffix(w) ==> r + Suffix == w
    ensures !HasSuffix(w) ==> r == w
  {
    if HasSuffix(w) then w[..|w| - |Suffix|] else w
  }

  /** The `limit` member of the update payload built from the editor value:
      a non-empty value gets the suffix, an empty one becomes an explicit null. */
  function Encode(local: string): (r: WireLimit)
    ensures r == Null <==> local == ""
    ensures r.Stamp? ==> HasSuffix(r.text) && Strip(r.text) == local
  {
    if local != "" then Stamp(local + Suffix) else Null
  }

  /** The editor value after a task has been loaded into it: a truthy wire
      limit is stripped and replaces the value; otherwise the value is kept. */
  function Load(current: string, wire: Option<string>): (r: string)
    ensures Truthy(wire) && HasSuffix(wire.value) ==> r + Suffix == wire.value
    ensures Truthy(wire) && !HasSuffix(wire.value) ==> r == wire.value
    ensures !Truthy(wire) ==> r == current
  {
    if Truthy(wire) then Strip(wire.value) else current
  }

  lemma SuffixOfAppend(l: string)
    ensures HasSuffix(l + Suffix)
    ensures (l + Suffix)[..|l|] == l
  {
    assert (l + Suffix)[|l|..] == Suffix;
  }

  /** Editor to wire and back: stripping undoes appending, for every value. */
  lemma StripEncoded(l: string)
    ensures Strip(l + Suffix) == l
  {
    SuffixOfAppend(l);
  }

  /** Wire to editor and back: a wire stamp `p + ":00Z"` with non-empty `p`
      is reproduced exactly by loading it and saving it again. */
  lemma EncodeStripped(p: string)
    requires p != ""
    ensures Encode(Strip(p + Suffix)) == Stamp(p + Suffix)
  {
    StripEncoded(p);
  }

  /** Only one suffix is removed, however many there are. */
  lemma StripRemovesOne(l: string)
    ensures Strip(l + Suffix + Suffix) == l + Suffix
  {
    StripEncoded(l + Suffix);
  }

  /** A wire value without the suffix (seconds other than zero, say) cannot
      survive a load followed by a save. */
  lemma UnsuffixedNotReproduced(w: string)
    requires !HasSuffix(w)
    ensures Encode(Strip(w)) != Stamp(w)
  {
    if w != "" {
      SuffixOfAppend(w);
    }
  }

  /** A wire value that is the bare suffix loads as an empty editor value and
      is therefore saved as an explicit null. */
  lemma BareSuffixSavesNull()
    ensures Load("", Some(Suffix)) == ""
    ensures Encode(Load("", Some(Suffix))) == Null
  {
  }

  /** The example of a load: `2024-05-01T09:00:00Z` becomes `2024-05-01T09:00`. */
  lemma LoadExample()
    ensures Load("", Some("2024-05-01T09:00:00Z")) == "2024-05-01T09:00"
  {
    StripEncoded("2024-05-01T09:00");
    assert "2024-05-01T09:00" + Suffix == "2024-05-01T09:00:00Z";
  }
}
