/**
 The items of a lookup page and the order they must come in: an adjacent-pair loop over tuples of
 strings, proved to decide the global order.
 */
module LookupItems {
  import opened Outcomes
  import opened Text

  datatype DefinitionRef = DefinitionRef(contentManifestId: string, entityKind: string, namespacedId: string, variant: Option<string>)

  datatype InstanceRef = InstanceRef(instanceId: string, runId: string, epoch: nat, entityKind: string, entityId: string)

  /** `displayName` is the text of the item's available display-name field; `fields` is everything else. */
  datatype Item = Item(definition: DefinitionRef, inst: Option<InstanceRef>, displayName: Option<string>, fields: string)

  datatype Ordering = Ordering(key: string, ascending: bool, algorithm: string)

  datatype Identity = Definition(definition: DefinitionRef) | Instance(inst: InstanceRef)

  function IdentityOf(item: Item): Identity {
    if item.inst.None? then Definition(item.definition) else Instance(item.inst.value)
  }

  // ---------- Sort keys ----------

  function VariantText(variant: Option<string>): string {
    if variant.Some? then variant.value else "null"
  }

  /** The strings that an item is compared by, if the ordering key applies to it. */
  function Parts(key: string, item: Item): Option<seq<string>> {
    var d := item.definition;
    if key == "definition_ref" then Some([d.contentManifestId, d.entityKind, d.namespacedId, VariantText(d.variant)])
    else if key == "instance_ref" && item.inst.Some? then
      var i := item.inst.value;
      Some([i.instanceId, i.runId, Decimal(i.epoch), i.entityKind, i.entityId])
    else if key == "namespaced_id" then Some([d.namespacedId, VariantText(d.variant)])
    else if key == "display_name" && item.displayName.Some? then Some([item.displayName.value])
    else None
  }

  /** Lexicographic order of string tuples, each string by its bytes. */
  predicate PartsLe(a: seq<string>, b: seq<string>) {
    a == [] || (b != [] && (if a[0] == b[0] then PartsLe(a[1..], b[1..]) else TextLe(a[0], b[0])))
  }

  lemma {:induction false} PartsTotal(a: seq<string>, b: seq<string>)
    ensures PartsLe(a, b) || PartsLe(b, a)
  {
    if a != [] && b != [] {
      if a[0] == b[0] {
        PartsTotal(a[1..], b[1..]);
      } else {
        LexTotal(Utf8(a[0]), Utf8(b[0]));
      }
    }
  }

  lemma TextStrict(a: string, b: string)
    requires TextLe(a, b) && TextLe(b, a)
    ensures a == b
  {
    LexAntisymmetric(Utf8(a), Utf8(b));
    Utf8Injective(a, b);
  }

  lemma {:induction false} PartsTransitive(a: seq<string>, b: seq<string>, c: seq<string>)
    requires PartsLe(a, b) && PartsLe(b, c)
    ensures PartsLe(a, c)
  {
    hide TextLe;
    if a != [] {
      if a[0] == b[0] && b[0] == c[0] {
        PartsTransitive(a[1..], b[1..], c[1..]);
      } else if a[0] != b[0] && b[0] != c[0] {
        TextTransitive(a[0], b[0], c[0]);
        if a[0] == c[0] {
          TextStrict(a[0], b[0]);
          assert false;
        }
      }
    }
  }

  lemma TextTransitive(a: string, b: string, c: string)
    requires TextLe(a, b) && TextLe(b, c)
    ensures TextLe(a, c)
  {
    LexTransitive(Utf8(a), Utf8(b), Utf8(c));
  }

  /** `a > b`. */
  predicate Exceeds(a: seq<string>, b: seq<string>) {
    PartsLe(b, a) && a != b
  }

  lemma {:induction false} PartsAntisymmetric(a: seq<string>, b: seq<string>)
    requires PartsLe(a, b) && PartsLe(b, a)
    ensures a == b
  {
    hide TextLe;
    if a != [] && b != [] {
      if a[0] != b[0] {
        TextStrict(a[0], b[0]);
        assert false;
      }
      PartsAntisymmetric(a[1..], b[1..]);
      assert a == [a[0]] + a[1..] && b == [b[0]] + b[1..];
    }
  }

  lemma {:induction false} PartsReflexive(a: seq<string>)
    ensures PartsLe(a, a)
  {
    if a != [] {
      PartsReflexive(a[1..]);
    }
  }

  lemma ExceedsMeans(a: seq<string>, b: seq<string>)
    ensures Exceeds(a, b) <==> !PartsLe(a, b)
  {
    hide PartsLe;
    PartsTotal(a, b);
    PartsReflexive(a);
    if PartsLe(a, b) && PartsLe(b, a) {
      PartsAntisymmetric(a, b);
    }
  }

  // ---------- The order ----------

  predicate InOrder(ascending: bool, a: seq<string>, b: seq<string>) {
    if ascending then PartsLe(a, b) else PartsLe(b, a)
  }

  predicate Coherent(o: Ordering) {
    (o.key == "display_name") == (o.algorithm == "unicode_scalar_values")
  }

  /** Every item has a sort key, and any two items come in order, not only neighbours. */
  predicate Ordered(items: seq<Item>, o: Ordering) {
    && Coherent(o)
    && (forall i :: 0 <= i < |items| ==> Parts(o.key, items[i]).Some?)
    && forall i, j :: 0 <= i < j < |items| ==>
         InOrder(o.ascending, Parts(o.key, items[i]).value, Parts(o.key, items[j]).value)
  }

  lemma OrderedSnoc(items: seq<Item>, item: Item, o: Ordering)
    requires Ordered(items, o) && Parts(o.key, item).Some?
    requires items != [] ==> InOrder(o.ascending, Parts(o.key, items[|items| - 1]).value, Parts(o.key, item).value)
    ensures Ordered(items + [item], o)
  {
    hide Parts, PartsLe;
    var all, n := items + [item], |items|;
    forall i | 0 <= i < n
      ensures InOrder(o.ascending, Parts(o.key, all[i]).value, Parts(o.key, all[n]).value)
    {
      var x, y, z := Parts(o.key, items[i]).value, Parts(o.key, items[n - 1]).value, Parts(o.key, item).value;
      if i < n - 1 {
        if o.ascending {
          PartsTransitive(x, y, z);
        } else {
          PartsTransitive(z, y, x);
        }
      }
    }
  }

  /** The order check: neighbours only, yet it accepts exactly the globally ordered lists. */
  method ValidateItemOrder(items: seq<Item>, o: Ordering) returns (ok: bool)
    ensures ok <==> Ordered(items, o)
  {
    hide Parts, PartsLe, Exceeds;
    if !Coherent(o) {
      return false;
    }
    var previous: Option<seq<string>> := None;
    for i := 0 to |items|
      invariant Ordered(items[..i], o)
      invariant previous == if i == 0 then None else Parts(o.key, items[i - 1])
    {
      var parts := Parts(o.key, items[i]);
      if parts.None? {
        return false;
      }
      if previous.Some? {
        var invalid := if o.ascending then Exceeds(previous.value, parts.value) else Exceeds(parts.value, previous.value);
        ExceedsMeans(previous.value, parts.value);
        ExceedsMeans(parts.value, previous.value);
        if invalid {
          return false;
        }
      }
      OrderedSnoc(items[..i], items[i], o);
      assert items[..i + 1] == items[..i] + [items[i]];
      previous := parts;
    }
    assert items[..|items|] == items;
    return true;
  }
}
