/**
 The records behind a placeholder. A placeholder names a value only within its container, the pair of
 an optional scope and an optional scope id, so the container is part of every key.
 */
module PiiMappings {
  import opened Options

  datatype Container = Container(scope: Option<string>, scopeId: Option<string>)

  datatype Key = Key(container: Container, placeholder: string)

  /** The keyed hash of a kind and a value, taken as collision-free. */
  datatype Hash = Hash(indexKey: string, kind: string, value: string)

  datatype Mapping = Mapping(
    placeholder: string, original: string, hash: Option<Hash>, kind: string, container: Container)

  type Rows = map<Key, Mapping>

  function KeyOf(m: Mapping): Key { Key(m.container, m.placeholder) }

  function Resolve(rows: Rows, container: Container, placeholder: string): Option<string> {
    var key := Key(container, placeholder);
    if key in rows then Some(rows[key].original) else None
  }

  const KINDS := ["email", "phone", "name", "address", "date", "id", "card", "secret", "url"]

  function Format(kind: string, code: string): string { "{{pii:" + kind + ":" + code + "}}" }
}
