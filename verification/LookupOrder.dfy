/** The item order of a listing, by the fields that each ordering key names and the first place where two items differ. */
module LookupOrder {
  import opened Outcomes
  import opened Text
  import opened LookupItems

  /** The tuples agree before `k`, and there the first has the text with the smaller bytes. */
  ghost predicate DecidedAt(a: seq<string>, b: seq<string>, k: nat) {
    && k < |a| && k < |b| && (forall i :: 0 <= i < k ==> a[i] == b[i])
    && SmallerText(a[k], b[k])
  }

  ghost predicate ComesFirst(a: seq<string>, b: seq<string>) {
    a == b || exists k :: DecidedAt(a, b, k)
  }

  lemma {:induction false} PartsLeFinds(a: seq<string>, b: seq<string>) returns (k: nat)
    requires |a| == |b| && PartsLe(a, b) && a != b
    ensures DecidedAt(a, b, k)
  {
    hide TextLe, SmallerText;
    if a[0] == b[0] {
      assert a == [a[0]] + a[1..] && b == [b[0]] + b[1..];
      var j := PartsLeFinds(a[1..], b[1..]);
      k := j + 1;
      assert a[k] == a[1..][j] && b[k] == b[1..][j];
      assert forall i :: 0 < i < k ==> a[i] == a[1..][i - 1] && b[i] == b[1..][i - 1];
    } else {
      k := 0;
      TextLeMeans(a[0], b[0]);
    }
  }

  lemma {:induction false} PartsLeFound(a: seq<string>, b: seq<string>, k: nat)
    requires DecidedAt(a, b, k)
    ensures PartsLe(a, b)
  {
    hide TextLe, SmallerText;
    if k == 0 {
      TextLeMeans(a[0], b[0]);
    } else {
      assert a[k] == a[1..][k - 1] && b[k] == b[1..][k - 1];
      assert DecidedAt(a[1..], b[1..], k - 1);
      PartsLeFound(a[1..], b[1..], k - 1);
    }
  }

  lemma PartsLeMeans(a: seq<string>, b: seq<string>)
    requires |a| == |b|
    ensures PartsLe(a, b) <==> ComesFirst(a, b)
  {
    hide PartsLe, DecidedAt;
    if a == b {
      PartsReflexive(a);
    } else if PartsLe(a, b) {
      var k := PartsLeFinds(a, b);
    } else if k :| DecidedAt(a, b, k) {
      PartsLeFound(a, b, k);
    }
  }

  /** What an item is sorted by: an absent variant counts as "null", an epoch as its decimal digits. */
  predicate SortedBy(key: string, item: Item, parts: seq<string>) {
    var d, i := item.definition, item.inst;
    var variant := if d.variant.None? then "null" else d.variant.value;
    || (key == "definition_ref" && parts == [d.contentManifestId, d.entityKind, d.namespacedId, variant])
    || (key == "namespaced_id" && parts == [d.namespacedId, variant])
    || (key == "display_name" && item.displayName.Some? && parts == [item.displayName.value])
    || (key == "instance_ref" && i.Some?
        && parts == [i.value.instanceId, i.value.runId, Decimal(i.value.epoch), i.value.entityKind, i.value.entityId])
  }

  lemma PartsMeans(key: string, item: Item)
    ensures forall parts :: SortedBy(key, item, parts) <==> Parts(key, item) == Some(parts)
  {
  }

  lemma SameArity(key: string, a: Item, b: Item, p: seq<string>, q: seq<string>)
    requires SortedBy(key, a, p) && SortedBy(key, b, q)
    ensures |p| == |q|
  {
    hide Decimal;
  }

  ghost predicate Sortable(key: string, item: Item) {
    exists p :: SortedBy(key, item, p)
  }

  /** In a listing every item has what it is sorted by, and of any two the one that comes first comes first, or last. */
  ghost predicate InListingOrder(items: seq<Item>, o: Ordering) {
    && (o.key == "display_name" <==> o.algorithm == "unicode_scalar_values")
    && (forall i :: 0 <= i < |items| ==> Sortable(o.key, items[i]))
    && (forall i, j, p, q :: 0 <= i < j < |items| && SortedBy(o.key, items[i], p) && SortedBy(o.key, items[j], q) ==>
          if o.ascending then ComesFirst(p, q) else ComesFirst(q, p))
  }

  lemma OrderedMeans(items: seq<Item>, o: Ordering)
    ensures Ordered(items, o) <==> InListingOrder(items, o)
  {
    forall i | 0 <= i < |items| ensures forall parts :: SortedBy(o.key, items[i], parts) <==> Parts(o.key, items[i]) == Some(parts) {
      PartsMeans(o.key, items[i]);
    }
    hide SortedBy, Parts, PartsLe, ComesFirst;
    if Ordered(items, o) {
      forall i | 0 <= i < |items| ensures Sortable(o.key, items[i]) {
        assert SortedBy(o.key, items[i], Parts(o.key, items[i]).value);
      }
      forall i, j, p, q | 0 <= i < j < |items| && SortedBy(o.key, items[i], p) && SortedBy(o.key, items[j], q)
        ensures if o.ascending then ComesFirst(p, q) else ComesFirst(q, p)
      {
        SameArity(o.key, items[i], items[j], p, q);
        PartsLeMeans(p, q);
        PartsLeMeans(q, p);
      }
    }
    if InListingOrder(items, o) {
      forall i | 0 <= i < |items| ensures Parts(o.key, items[i]).Some? {
        assert Sortable(o.key, items[i]);
      }
      forall i, j | 0 <= i < j < |items| ensures InOrder(o.ascending, Parts(o.key, items[i]).value, Parts(o.key, items[j]).value) {
        assert Sortable(o.key, items[i]) && Sortable(o.key, items[j]);
        var p, q := Parts(o.key, items[i]).value, Parts(o.key, items[j]).value;
        SameArity(o.key, items[i], items[j], p, q);
        PartsLeMeans(p, q);
        PartsLeMeans(q, p);
      }
    }
  }
}
