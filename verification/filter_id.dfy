/**
  The identifier a filter family is parsed under (src/filter_id.rs). Lookup in the
  query always uses `Id`, the real field name; `Prefix` is the table scope used by
  SQL emission, and `Key` is the column name written out, an alias when there is one.
*/
module FilterIds {
  import opened Wrappers

  datatype FilterId =
    | Alone(id: string)
    | WithPrefix(prefix: string, id: string)
    | WithPrefixAndAlias(prefix: string, id: string, alias: string)
  {
    /** The field name looked up in the query. */
    function Id(): (r: string)
      ensures r == this.id
    {
      match this
      case Alone(id) => id
      case WithPrefix(_, id) => id
      case WithPrefixAndAlias(_, id, _) => id
    }

    /** The scope, absent for an unscoped identifier. */
    function Prefix(): (r: Option<string>)
      ensures r.None? <==> this.Alone?
      ensures r.Some? ==> r.value == this.prefix
    {
      match this
      case Alone(_) => None
      case WithPrefix(prefix, _) => Some(prefix)
      case WithPrefixAndAlias(prefix, _, _) => Some(prefix)
    }

    /** The name written into SQL: the alias when there is one, the field name otherwise. */
    function Key(): (r: string)
      ensures this.WithPrefixAndAlias? ==> r == this.alias
      ensures !this.WithPrefixAndAlias? ==> r == Id()
    {
      match this
      case Alone(id) => id
      case WithPrefix(_, id) => id
      case WithPrefixAndAlias(_, _, alias) => alias
    }
  }

  /** `From<String>`: a bare string is an unscoped identifier. */
  function FromString(value: string): (r: FilterId)
    ensures r.Alone? && r.Id() == value && r.Prefix() == None && r.Key() == value
  {
    Alone(value)
  }

  /** Without an alias, an identifier is determined by its field name and its scope. */
  lemma ComponentsDetermineId(f: FilterId, g: FilterId)
    requires !f.WithPrefixAndAlias? && !g.WithPrefixAndAlias?
    requires f.Id() == g.Id() && f.Prefix() == g.Prefix()
    ensures f == g
  {
  }

  /** The alias changes only the emitted key: the looked-up name and the scope stay those of the unaliased identifier. */
  lemma AliasOnlyChangesKey(prefix: string, id: string, alias: string)
    ensures WithPrefixAndAlias(prefix, id, alias).Id() == WithPrefix(prefix, id).Id()
    ensures WithPrefixAndAlias(prefix, id, alias).Prefix() == WithPrefix(prefix, id).Prefix()
    ensures WithPrefixAndAlias(prefix, id, alias).Key() == alias
  {
  }
}
