/** Where each fact comes from: a named list, the customer's history or a field of the
    request, in that order of preference. */
module FactSources {
  import opened Values
  import opened Functions
  import opened Handler

  /** The `i`-th item is the last that goes by this name under the prefix. */
  ghost predicate LastFor(items: Items, prefix: string, name: string, i: int) {
    && 0 <= i < |items| && prefix + items[i].0 == name
    && forall j | i < j < |items| :: prefix + items[j].0 != name
  }

  lemma {:induction false} PutGives(facts: Facts, prefix: string, items: Items, name: string, i: int)
    requires LastFor(items, prefix, name, i)
    ensures name in Put(facts, prefix, items) && Put(facts, prefix, items)[name] == items[i].1
  {
    var earlier := items[..|items| - 1];
    if i < |earlier| {
      assert prefix + items[|items| - 1].0 != name;
      assert LastFor(earlier, prefix, name, i);
      PutGives(facts, prefix, earlier, name, i);
    }
  }

  /** A named list goes before everything else. */
  lemma {:induction false} ListsComeFirst(t: Transaction, p: Provider, lists: Lists, i: int)
    requires 0 <= i < |lists| && forall j | i < j < |lists| :: lists[j].0 != lists[i].0
    ensures lists[i].0 in FactsFor(t, p, lists) && FactsFor(t, p, lists)[lists[i].0] == Tuple(lists[i].1)
  {
    var items := AsItems(lists);
    forall j ensures 0 <= j < |items| ==> "" + items[j].0 == lists[j].0 {}
    assert LastFor(items, "", lists[i].0, i);
    PutGives(RequestFacts(t) + HistoryFacts(p), "", items, lists[i].0, i);
  }

  ghost predicate NoListNamed(lists: Lists, name: string) {
    forall i | 0 <= i < |lists| :: lists[i].0 != name
  }

  lemma {:induction false} UnlistedFact(t: Transaction, p: Provider, lists: Lists, name: string)
    requires NoListNamed(lists, name)
    ensures name in FactsFor(t, p, lists) <==> name in RequestFacts(t) + HistoryFacts(p)
    ensures name in FactsFor(t, p, lists) ==>
              FactsFor(t, p, lists)[name] == (RequestFacts(t) + HistoryFacts(p))[name]
  {
    var items := AsItems(lists);
    forall i | i in items ensures "" + i.0 != name {
      var j :| 0 <= j < |items| && items[j] == i;
      assert "" + i.0 == lists[j].0;
    }
    PutKeeps(RequestFacts(t) + HistoryFacts(p), "", items, name);
  }

  lemma {:induction false} HistoryNamesOnly(p: Provider, name: string)
    requires !HistoryName(name)
    ensures name !in HistoryFacts(p)
  {
  }

  // ------------------------------------------------------------ request fields

  predicate BaseName(name: string) {
    name in {"amount_minor", "currency", "transaction_type", "channel"}
  }

  /** Fields of the customer, the destination and the device never share a name with
      each other or with the four fields of the transaction itself. */
  lemma {:induction false} FamiliesApart(customer: string, field: string, other: string)
    requires customer in CUSTOMER_FIELDS
    ensures !BaseName(customer) && !HistoryName(customer)
    ensures "destination_" + field != "device_" + other
    ensures customer != "destination_" + field && customer != "device_" + field
  {
    var a, b := "destination_" + field, "device_" + other;
    assert a[2] == 's' && b[2] == 'v';
    assert ("destination_" + field)[0] == 'd' && ("device_" + field)[0] == 'd';
    assert customer[0] != 'd';
  }

  lemma {:induction false} PrefixedApart(field: string)
    ensures !BaseName("destination_" + field) && !BaseName("device_" + field)
  {
    var a, b := "destination_" + field, "device_" + field;
    assert a[0] == 'd' && b[0] == 'd';
    assert "amount_minor"[0] != 'd' && "currency"[0] != 'd' && "transaction_type"[0] != 'd' && "channel"[0] != 'd';
  }

  lemma {:induction false} PrefixesMiss(t: Transaction, facts: Facts, name: string)
    requires forall i | i in t.destination :: "destination_" + i.0 != name
    requires forall i | i in t.device :: "device_" + i.0 != name
    ensures var r := Put(Put(facts, "destination_", t.destination), "device_", t.device);
            (name in r <==> name in facts) && (name in facts ==> r[name] == facts[name])
  {
    PutKeeps(facts, "destination_", t.destination, name);
    PutKeeps(Put(facts, "destination_", t.destination), "device_", t.device, name);
  }

  /** The amount, currency, type and channel go by their own names. */
  lemma {:induction false} TransactionFacts(t: Transaction, name: string)
    requires Accepted(t) && BaseName(name)
    ensures name in RequestFacts(t)
    ensures RequestFacts(t)[name] == match name {
              case "amount_minor" => Int(t.amount)
              case "currency" => Text(t.currency)
              case "transaction_type" => Text(t.kind)
              case _ => Text(t.channel)
            }
  {
    forall i | i in t.customer ensures "" + i.0 != name {
      assert "" + i.0 == i.0;
      FamiliesApart(i.0, "", "");
    }
    forall i | i in t.destination ensures "destination_" + i.0 != name {
      PrefixedApart(i.0);
    }
    forall i | i in t.device ensures "device_" + i.0 != name {
      PrefixedApart(i.0);
    }
    PutKeeps(BaseFacts(t), "", t.customer, name);
    PrefixesMiss(t, Put(BaseFacts(t), "", t.customer), name);
  }

  /** A field of the customer goes by its own name. */
  lemma {:induction false} CustomerFieldFacts(t: Transaction, name: string, i: int)
    requires Accepted(t) && LastFor(t.customer, "", name, i)
    ensures name in RequestFacts(t) && RequestFacts(t)[name] == t.customer[i].1
  {
    assert "" + t.customer[i].0 == t.customer[i].0;
    PutGives(BaseFacts(t), "", t.customer, name, i);
    forall j | j in t.destination ensures "destination_" + j.0 != name {
      FamiliesApart(name, j.0, "");
    }
    forall j | j in t.device ensures "device_" + j.0 != name {
      FamiliesApart(name, j.0, "");
    }
    PrefixesMiss(t, Put(BaseFacts(t), "", t.customer), name);
  }

  /** One of the destination goes under `destination_`, one of the device under `device_`. */
  lemma {:induction false} PrefixedFieldFacts(t: Transaction, name: string, i: int)
    ensures LastFor(t.destination, "destination_", name, i) ==>
              name in RequestFacts(t) && RequestFacts(t)[name] == t.destination[i].1
    ensures LastFor(t.device, "device_", name, i) ==>
              name in RequestFacts(t) && RequestFacts(t)[name] == t.device[i].1
  {
    var customers := Put(BaseFacts(t), "", t.customer);
    var destinations := Put(customers, "destination_", t.destination);
    if LastFor(t.destination, "destination_", name, i) {
      PutGives(customers, "destination_", t.destination, name, i);
      forall j | j in t.device ensures "device_" + j.0 != name {
        FamiliesApart("country", t.destination[i].0, j.0);
      }
      PutKeeps(destinations, "device_", t.device, name);
    }
    if LastFor(t.device, "device_", name, i) {
      PutGives(destinations, "device_", t.device, name, i);
    }
  }

  /** A fact the request supplies is the request's, unless a list has its name. */
  lemma {:induction false} RequestFactHolds(t: Transaction, p: Provider, lists: Lists, name: string)
    requires Accepted(t) && NoListNamed(lists, name) && name in RequestFacts(t)
    ensures name in FactsFor(t, p, lists) && FactsFor(t, p, lists)[name] == RequestFacts(t)[name]
  {
    if HistoryName(name) {
      RequestNames(t, name);
    } else {
      HistoryNamesOnly(p, name);
    }
    UnlistedFact(t, p, lists, name);
  }
}
