/** Set and hash values: SADD, SREM, HSET and HDEL, element by element, counting what changed. */
module Collections {
  import opened Base
  import opened SortedSets

  class SetValue {
    var members: set<string>

    constructor ()
      ensures members == {}
    {
      members := {};
    }

    method SAdd(ms: seq<string>) returns (added: nat)
      modifies this
      ensures members == old(members) + Elements(ms)
      ensures added == |members| - |old(members)|
    {
      added := 0;
      for i := 0 to |ms|
        invariant members == old(members) + Elements(ms[..i])
        invariant added == |members| - |old(members)|
      {
        assert Elements(ms[..i + 1]) == Elements(ms[..i]) + {ms[i]};
        if ms[i] !in members {
          members := members + {ms[i]};
          added := added + 1;
        }
      }
      assert ms[..|ms|] == ms;
    }

    method SRem(ms: seq<string>) returns (removed: nat)
      modifies this
      ensures members == old(members) - Elements(ms)
      ensures removed == |old(members)| - |members|
    {
      removed := 0;
      for i := 0 to |ms|
        invariant members == old(members) - Elements(ms[..i])
        invariant removed == |old(members)| - |members|
      {
        assert Elements(ms[..i + 1]) == Elements(ms[..i]) + {ms[i]};
        if ms[i] in members {
          members := members - {ms[i]};
          removed := removed + 1;
        }
      }
      assert ms[..|ms|] == ms;
    }
  }

  class HashValue {
    var fields: map<string, string>

    constructor ()
      ensures fields == map[]
    {
      fields := map[];
    }

    method HSet(field: string, text: string) returns (isNew: nat)
      modifies this
      ensures fields == old(fields)[field := text]
      ensures isNew == |fields| - |old(fields)|
    {
      assert fields[field := text].Keys == fields.Keys + {field};
      isNew := if field in fields then 0 else 1;
      fields := fields[field := text];
    }

    method HDel(names: seq<string>) returns (deleted: nat)
      modifies this
      ensures fields == old(fields) - Elements(names)
      ensures deleted == |old(fields)| - |fields|
    {
      deleted := 0;
      ghost var before := fields;
      for i := 0 to |names|
        invariant fields == before - Elements(names[..i])
        invariant deleted == |before| - |fields|
      {
        DropOne(before, names, i);
        if names[i] in fields {
          fields := fields - {names[i]};
          deleted := deleted + 1;
        }
      }
      assert names[..|names|] == names;
    }
  }
}
