/** Small value types and the two string-keyed stores of a reaction
    (reaction/types.go): reaction properties and reaction metadata. */
module ReactionTypes {

  /** `Rect2f`: a bounding box. The coordinates are only stored, never
      computed with, so they are kept as reals. */
  datatype Rect2f = Rect2f(x: real, y: real, width: real, height: real)

  /** `SpecialCondition`: a metadata index and its box. */
  datatype SpecialCondition = SpecialCondition(metaIdx: int, bbox: Rect2f)

  /** A metadata value. Go stores `interface{}`; all that `GetMetaCount`
      distinguishes is whether the value is a `[]interface{}` list. */
  datatype MetaValue = MetaList(items: seq<MetaValue>) | MetaOther

  /** `MetaDataStorage`: metadata values by identifier. */
  class MetaDataStorage {
    var data: map<string, MetaValue>

    /** `NewMetaDataStorage`: nothing stored. */
    constructor ()
      ensures data == map[]
    {
      data := map[];
    }

    /** `Clone`: the store is emptied and then receives every entry of
        `other`. Cloning a store from itself therefore empties it. */
    method CloneFrom(other: MetaDataStorage)
      modifies this
      ensures data == other.data
      ensures other != this ==> data == old(other.data)
      ensures other == this ==> data == map[]
    {
      data := map[];
      var source := other.data;
      var remaining := source.Keys;
      while remaining != {}
        invariant remaining <= source.Keys
        invariant other != this ==> other.data == source
        invariant other == this ==> source == map[]
        invariant data == map k | k in source.Keys - remaining :: source[k]
        decreases remaining
      {
        var k :| k in remaining;
        data := data[k := source[k]];
        remaining := remaining - {k};
      }
    }

    /** `GetMetaCount`: the length of the list stored under `id`, and 0
        when nothing is stored there or the value is not a list. */
    function GetMetaCount(id: string): (n: int)
      reads this
      ensures n >= 0
      ensures id !in data ==> n == 0
      ensures id in data && !data[id].MetaList? ==> n == 0
      ensures id in data && data[id].MetaList? ==> n == |data[id].items|
    {
      if id in data && data[id].MetaList? then |data[id].items| else 0
    }
  }

  /** `PropertiesMap`: string properties by name. */
  class PropertiesMap {
    var properties: map<string, string>

    /** `NewPropertiesMap`: no properties. */
    constructor ()
      ensures properties == map[]
    {
      properties := map[];
    }

    /** `Copy`: the map is emptied and then receives every entry of `other`,
        so afterwards the two hold equal maps; a later `Set` on one does not
        reach the other, because Dafny maps are values. */
    method Copy(other: PropertiesMap)
      modifies this
      ensures properties == other.properties
      ensures other != this ==> properties == old(other.properties)
      ensures other == this ==> properties == map[]
    {
      properties := map[];
      var source := other.properties;
      var remaining := source.Keys;
      while remaining != {}
        invariant remaining <= source.Keys
        invariant other != this ==> other.properties == source
        invariant other == this ==> source == map[]
        invariant properties == map k | k in source.Keys - remaining :: source[k]
        decreases remaining
      {
        var k :| k in remaining;
        properties := properties[k := source[k]];
        remaining := remaining - {k};
      }
    }

    /** `Get`: the value and `true` when the key is present, and Go's zero
        value `""` with `false` otherwise. */
    function Get(key: string): (r: (string, bool))
      reads this
      ensures r.1 <==> key in properties
      ensures r.1 ==> r.0 == properties[key]
      ensures !r.1 ==> r.0 == ""
    {
      if key in properties then (properties[key], true) else ("", false)
    }

    /** `Set`: afterwards `Get(key)` gives `(value, true)`, and every other
        key reads as before. */
    method Set(key: string, value: string)
      modifies this
      ensures properties == old(properties)[key := value]
      ensures Get(key) == (value, true)
      ensures forall k :: k != key ==> Get(k) == old(Get(k))
    {
      properties := properties[key := value];
    }
  }
}
