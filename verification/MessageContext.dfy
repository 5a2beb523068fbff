/** The message context a node works on: raw bytes that are absent, empty, or a JSON object, with
    plain top-level keys. */
module MessageContext {
  import opened Wrappers

  datatype Json =
    | Null
    | Bool(b: bool)
    | Number(n: real)
    | Str(s: string)
    | Arr(items: seq<Json>)
    | Obj(fields: map<string, Json>)

  /** NilBytes is Go's nil slice, EmptyBytes a slice of length zero that is not nil. */
  datatype Data = NilBytes | EmptyBytes | Doc(fields: map<string, Json>)

  /** Reading a missing key, or any key when there is no object, yields null. */
  function GetKey(d: Data, key: string): Json {
    if d.Doc? && key in d.fields then d.fields[key] else Null
  }

  /** Writing a key into absent or empty data starts a new object. */
  function SetKey(d: Data, key: string, value: Json): Data {
    Doc((if d.Doc? then d.fields else map[])[key := value])
  }

  class Context {
    var data: Data

    constructor (data: Data)
      ensures this.data == data
    {
      this.data := data;
    }

    function Get(key: string): Json
      reads this
    {
      GetKey(data, key)
    }

    predicate IsEmpty()
      reads this
    {
      data.NilBytes? || data.EmptyBytes?
    }

    function GetRaw(): Data
      reads this
    {
      data
    }

    method Set(key: string, value: Json)
      modifies this
      ensures data == SetKey(old(data), key, value)
    {
      data := Doc((if data.Doc? then data.fields else map[])[key := value]);
    }

    method SetRaw(raw: Data)
      modifies this
      ensures data == raw
    {
      data := raw;
    }
  }

  /** A write changes the one key; from nothing it starts an empty object. */
  lemma GetAfterSet(d: Data, key: string, value: Json, k: string)
    ensures GetKey(SetKey(d, key, value), k) == if k == key then value else GetKey(d, k)
    ensures SetKey(d, key, value).Doc?
    ensures k in SetKey(d, key, value).fields <==> k == key || (d.Doc? && k in d.fields)
  {}
}
