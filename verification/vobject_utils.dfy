/** Helpers for vCard/iCalendar encoding: date-time property modes and key remapping. */
module VObjectUtils {
  import opened Options

  /** A PHP DateTime as libkolab hands it over: an instant, a zone, and the date-only marker. */
  datatype DateTime = DateTime(stamp: int, tz: string, dateOnly: bool)

  /** The value modes of a VObject date-time property. */
  datatype DateMode = Date | Utc | LocalTz

  /** A date-time property: its name, the value and how it is serialised. */
  datatype DateProp = DateProp(name: string, value: DateTime, mode: DateMode)

  /** datetime_prop: a date-only value is a DATE whatever the utc flag, otherwise UTC or local time. */
  function DatetimeProp(name: string, dt: DateTime, utc: bool): (p: DateProp)
    ensures p.name == name && p.value == dt
    ensures p.mode == Date <==> dt.dateOnly
    ensures p.mode == Utc <==> !dt.dateOnly && utc
    ensures p.mode == LocalTz <==> !dt.dateOnly && !utc
  {
    DateProp(name, dt, if dt.dateOnly then Date else if utc then Utc else LocalTz)
  }

  /**
   * map_keys: for each (from, to) entry in order, out[to] = values[from] when
   * `from` is set. A key absent from `values` stands for an unset or null one.
   */
  function MapKeys<V>(values: map<string, V>, keymap: seq<(string, string)>): (out: map<string, V>)
    decreases |keymap|
  {
    if |keymap| == 0 then map[]
    else
      var (from, to) := keymap[|keymap| - 1];
      var rest := MapKeys(values, keymap[..|keymap| - 1]);
      if from in values then rest[to := values[from]] else rest
  }

  /** The last entry of `keymap` targeting `to` whose source is set. */
  function LastSetSource<V>(values: map<string, V>, keymap: seq<(string, string)>, to: string): (r: Option<string>)
    ensures r.Some? ==> r.value in values
    decreases |keymap|
  {
    if |keymap| == 0 then None
    else if keymap[|keymap| - 1].1 == to && keymap[|keymap| - 1].0 in values then Some(keymap[|keymap| - 1].0)
    else LastSetSource(values, keymap[..|keymap| - 1], to)
  }

  /**
   * map_keys: a key is in the output iff it is the target of an entry whose
   * source is set, and its value is the source value of the last such entry.
   */
  lemma {:induction false} MapKeysSpec<V>(values: map<string, V>, keymap: seq<(string, string)>)
    ensures forall to :: to in MapKeys(values, keymap) <==> exists i :: 0 <= i < |keymap| && keymap[i].1 == to && keymap[i].0 in values
    ensures forall to :: to in MapKeys(values, keymap) ==>
      LastSetSource(values, keymap, to).Some? && MapKeys(values, keymap)[to] == values[LastSetSource(values, keymap, to).value]
    decreases |keymap|
  {
    if |keymap| > 0 {
      var n := |keymap|;
      MapKeysSpec(values, keymap[..n - 1]);
      forall to ensures to in MapKeys(values, keymap) <==> exists i :: 0 <= i < n && keymap[i].1 == to && keymap[i].0 in values {
        if exists i :: 0 <= i < n && keymap[i].1 == to && keymap[i].0 in values {
          var i :| 0 <= i < n && keymap[i].1 == to && keymap[i].0 in values;
          if i < n - 1 {
            assert keymap[..n - 1][i] == keymap[i];
          }
        }
      }
    }
  }

  /**
   * Remapping with an injective key map and back with its inverse restores
   * every mapped key whose value was set.
   */
  lemma {:induction false} MapKeysInverse<V>(values: map<string, V>, keymap: seq<(string, string)>)
    requires forall i, j :: 0 <= i < j < |keymap| ==> keymap[i].0 != keymap[j].0 && keymap[i].1 != keymap[j].1
    ensures var back := MapKeys(MapKeys(values, keymap), Flip(keymap));
      forall i :: 0 <= i < |keymap| && keymap[i].0 in values ==> keymap[i].0 in back && back[keymap[i].0] == values[keymap[i].0]
  {
    var out := MapKeys(values, keymap);
    var back := MapKeys(out, Flip(keymap));
    MapKeysSpec(values, keymap);
    MapKeysSpec(out, Flip(keymap));
    forall i | 0 <= i < |keymap| && keymap[i].0 in values
      ensures keymap[i].0 in back && back[keymap[i].0] == values[keymap[i].0]
    {
      var (from, to) := keymap[i];
      LastSetSourceUnique(values, keymap, i);
      assert to in out && out[to] == values[from];
      assert Flip(keymap)[i] == (to, from);
      LastSetSourceUnique(out, Flip(keymap), i);
    }
  }

  /** Each entry turned around. */
  function Flip(keymap: seq<(string, string)>): (r: seq<(string, string)>)
    ensures |r| == |keymap|
  {
    seq(|keymap|, i requires 0 <= i < |keymap| => (keymap[i].1, keymap[i].0))
  }

  /** With distinct targets, the source of a set entry is the one the lookup finds. */
  lemma {:induction false} LastSetSourceUnique<V>(values: map<string, V>, keymap: seq<(string, string)>, i: nat)
    requires i < |keymap| && keymap[i].0 in values
    requires forall a, b :: 0 <= a < b < |keymap| ==> keymap[a].1 != keymap[b].1
    ensures LastSetSource(values, keymap, keymap[i].1) == Some(keymap[i].0)
    decreases |keymap|
  {
    var n := |keymap|;
    if i < n - 1 {
      assert keymap[..n - 1][i] == keymap[i];
      LastSetSourceUnique(values, keymap[..n - 1], i);
    }
  }
}
