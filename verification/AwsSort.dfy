/** Sorting of elastic IPs by a tag or a field, internal/address/aws.go. */
module AwsSort {
  import opened Wrappers

  datatype Tag = Tag(key: string, value: string)

  datatype Field =
    | AllocationId | AssociationId | Domain | InstanceId | NetworkInterfaceId | NetworkInterfaceOwnerId
    | PrivateIpAddress | PublicIp | PublicIpv4Pool

  /** A nil tag list is None, and a field that is not in `fields` is a nil pointer. */
  datatype Address = Address(allocationId: nat, publicIp: string, tags: Option<seq<Tag>>, fields: map<Field, string>)

  /** Domain is not a pointer. */
  function FieldOf(a: Address, field: Field): Option<string> {
    if field in a.fields then Some(a.fields[field]) else if field.Domain? then Some("") else None
  }

  datatype OrderBy = Unordered | ByTag(key: string) | ByField(field: Field)

  /** What sortBy asks for; an unknown name asks for nothing. */
  function OrderOf(sortBy: string): OrderBy {
    if "Tag:" <= sortBy then ByTag(sortBy[4..])
    else if sortBy == "AllocationId" then ByField(AllocationId)
    else if sortBy == "AssociationId" then ByField(AssociationId)
    else if sortBy == "Domain" then ByField(Domain)
    else if sortBy == "InstanceId" then ByField(InstanceId)
    else if sortBy == "NetworkInterfaceId" then ByField(NetworkInterfaceId)
    else if sortBy == "NetworkInterfaceOwnerId" then ByField(NetworkInterfaceOwnerId)
    else if sortBy == "PrivateIpAddress" then ByField(PrivateIpAddress)
    else if sortBy == "PublicIp" then ByField(PublicIp)
    else if sortBy == "PublicIpv4Pool" then ByField(PublicIpv4Pool)
    else Unordered
  }

  /** Go's < on strings. */
  predicate StringLess(a: string, b: string) {
    |b| > 0 && (|a| == 0 || a[0] < b[0] || (a[0] == b[0] && StringLess(a[1..], b[1..])))
  }

  lemma {:induction false} StringOrder(a: string, b: string, c: string)
    ensures !StringLess(a, a)
    ensures StringLess(a, b) && StringLess(b, c) ==> StringLess(a, c)
    ensures StringLess(a, b) || StringLess(b, a) || a == b
    ensures !(StringLess(a, b) && StringLess(b, a))
  {
    if |a| > 0 && |b| > 0 {
      StringOrder(a[1..], b[1..], if |c| > 0 then c[1..] else c);
      assert a[0] == b[0] && a[1..] == b[1..] ==> a == [a[0]] + a[1..] == [b[0]] + b[1..] == b;
    } else if |a| > 0 {
      StringOrder(a[1..], b, c);
    }
  }

  /** The value of the first tag with the key. */
  function TagValue(tags: seq<Tag>, key: string): Option<string> {
    if |tags| == 0 then None
    else if tags[0].key == key then Some(tags[0].value)
    else TagValue(tags[1..], key)
  }

  /** The comparator's meaning: nil tags last, values compared when both have the key. */
  predicate TagLess(a: Address, b: Address, key: string) {
    if a.tags.None? then false
    else if b.tags.None? then true
    else
      var va, vb := TagValue(a.tags.value, key), TagValue(b.tags.value, key);
      va.Some? && vb.Some? && StringLess(va.value, vb.value)
  }

  /** The comparator as written, with its two nested scans. */
  method Less(a: Address, b: Address, key: string) returns (less: bool)
    ensures less == TagLess(a, b, key)
  {
    if a.tags.None? {
      return false;
    }
    if b.tags.None? {
      return true;
    }
    var s, t := a.tags.value, b.tags.value;
    for i := 0 to |s|
      invariant TagValue(s[i..], key) == TagValue(s, key) || TagValue(t, key).None?
    {
      assert s[i..][1..] == s[i + 1..];
      if s[i].key == key {
        for j := 0 to |t|
          invariant TagValue(t[j..], key) == TagValue(t, key)
        {
          assert t[j..][1..] == t[j + 1..];
          if t[j].key == key {
            return StringLess(s[i].value, t[j].value);
          }
        }
      }
    }
    return false;
  }

  /** The comparator used for an order. A nil field is never compared: that panics. */
  predicate LessBy(a: Address, b: Address, ord: OrderBy) {
    match ord
    case Unordered => false
    case ByTag(key) => TagLess(a, b, key)
    case ByField(field) =>
      FieldOf(a, field).Some? && FieldOf(b, field).Some? && StringLess(FieldOf(a, field).value, FieldOf(b, field).value)
  }

  /** Every comparator is a strict partial order on all addresses. */
  lemma StrictPartialOrder(a: Address, b: Address, c: Address, ord: OrderBy)
    ensures !LessBy(a, a, ord)
    ensures !(LessBy(a, b, ord) && LessBy(b, a, ord))
    ensures LessBy(a, b, ord) && LessBy(b, c, ord) ==> LessBy(a, c, ord)
  {
    forall x: string, y: string, z: string
      ensures !StringLess(x, x) && !(StringLess(x, y) && StringLess(y, x))
      ensures StringLess(x, y) && StringLess(y, z) ==> StringLess(x, z)
    {
      StringOrder(x, y, z);
    }
  }

  predicate Incomparable(a: Address, b: Address, ord: OrderBy) {
    !LessBy(a, b, ord) && !LessBy(b, a, ord)
  }

  /** Incomparability is transitive among the addresses, as sort.Slice demands of its comparator. */
  ghost predicate WeaklyOrdered(m: multiset<Address>, ord: OrderBy) {
    forall a, b, c :: a in m && b in m && c in m && Incomparable(a, b, ord) && Incomparable(b, c, ord) ==>
        Incomparable(a, c, ord)
  }

  predicate LacksKey(a: Address, key: string) {
    a.tags.Some? && TagValue(a.tags.value, key).None?
  }

  predicate HasValue(a: Address, key: string) {
    a.tags.Some? && TagValue(a.tags.value, key).Some?
  }

  function ValueOf(a: Address, key: string): string
    requires HasValue(a, key)
  {
    TagValue(a.tags.value, key).value
  }

  /** A tagged address lacking the key beside two different values of it. */
  ghost predicate Mixed(m: multiset<Address>, key: string) {
    && (exists a :: a in m && LacksKey(a, key))
    && (exists b, c :: b in m && c in m && HasValue(b, key) && HasValue(c, key) && ValueOf(b, key) != ValueOf(c, key))
  }

  /** The comparator is a strict weak order on a list exactly when the list is not mixed. */
  lemma WeakOrderExactly(m: multiset<Address>, key: string)
    ensures WeaklyOrdered(m, ByTag(key)) <==> !Mixed(m, key)
  {
    forall x: string, y: string ensures StringLess(x, y) || StringLess(y, x) || x == y { StringOrder(x, y, ""); }
    if Mixed(m, key) {
      var a :| a in m && LacksKey(a, key);
      var b, c :| b in m && c in m && HasValue(b, key) && HasValue(c, key) && ValueOf(b, key) != ValueOf(c, key);
      assert Incomparable(b, a, ByTag(key)) && Incomparable(a, c, ByTag(key)) && !Incomparable(b, c, ByTag(key));
    } else {
      forall a, b, c | a in m && b in m && c in m && Incomparable(a, b, ByTag(key)) && Incomparable(b, c, ByTag(key))
        ensures Incomparable(a, c, ByTag(key))
      {
        assert LacksKey(b, key) && HasValue(a, key) && HasValue(c, key) ==> ValueOf(a, key) == ValueOf(c, key);
        assert HasValue(b, key) && HasValue(a, key) ==> ValueOf(a, key) == ValueOf(b, key);
        assert HasValue(b, key) && HasValue(c, key) ==> ValueOf(b, key) == ValueOf(c, key);
        StringOrder(if HasValue(a, key) then ValueOf(a, key) else "", "", "");
      }
    }
  }

  ghost predicate AllHave(m: multiset<Address>, field: Field) {
    forall a :: a in m ==> FieldOf(a, field).Some?
  }

  /** Comparing fields that are all there is a strict weak order. */
  lemma FieldWeakOrder(m: multiset<Address>, field: Field)
    requires AllHave(m, field)
    ensures WeaklyOrdered(m, ByField(field))
  {
    forall x: string, y: string ensures StringLess(x, y) || StringLess(y, x) || x == y { StringOrder(x, y, ""); }
  }

  /** When the result of sorting is sorted. */
  ghost predicate Sortable(m: multiset<Address>, ord: OrderBy) {
    match ord
    case Unordered => true
    case ByTag(key) => !Mixed(m, key)
    case ByField(field) => AllHave(m, field)
  }

  lemma SortableWeakly(m: multiset<Address>, ord: OrderBy)
    requires Sortable(m, ord)
    ensures WeaklyOrdered(m, ord)
  {
    match ord
    case Unordered =>
    case ByTag(key) => WeakOrderExactly(m, key);
    case ByField(field) => FieldWeakOrder(m, field);
  }

  /** No later address is less than an earlier one. */
  ghost predicate Sorted(s: seq<Address>, ord: OrderBy) {
    forall i, j :: 0 <= i < j < |s| ==> !LessBy(s[j], s[i], ord)
  }

  /** In a list sorted by a tag the addresses with nil tags come last. */
  lemma NilTagsLast(s: seq<Address>, key: string, i: nat, j: nat)
    requires Sorted(s, ByTag(key)) && i < j < |s| && s[i].tags.None?
    ensures s[j].tags.None?
  {
    assert !LessBy(s[j], s[i], ByTag(key));
  }

  /** On a weakly ordered list, "not less" is transitive. */
  lemma NotLessTransitive(m: multiset<Address>, ord: OrderBy, a: Address, b: Address, c: Address)
    requires WeaklyOrdered(m, ord) && a in m && b in m && c in m
    requires !LessBy(b, a, ord) && !LessBy(c, b, ord)
    ensures !LessBy(c, a, ord)
  {
    StrictPartialOrder(a, b, c, ord);
    StrictPartialOrder(c, a, b, ord);
    StrictPartialOrder(b, c, a, ord);
  }

  /** A stand-in for sort.Slice: in place, a permutation, and sorted when the comparator is a strict
      weak order on the list. */
  method SortSlice(addresses: array<Address>, ord: OrderBy)
    requires ord.ByField? && addresses.Length > 1 ==> AllHave(multiset(addresses[..]), ord.field)
    modifies addresses
    ensures multiset(addresses[..]) == multiset(old(addresses[..]))
    ensures Sortable(multiset(old(addresses[..])), ord) || addresses.Length < 2 ==> Sorted(addresses[..], ord)
  {
    if addresses.Length < 2 {
      return;
    }
    ghost var m := multiset(addresses[..]);
    if Sortable(m, ord) { SortableWeakly(m, ord); }
    hide WeaklyOrdered, Sortable;
    for i := 0 to addresses.Length
      invariant multiset(addresses[..]) == m
      invariant WeaklyOrdered(m, ord) ==> Sorted(addresses[..i], ord)
    {
      Insert(addresses, i, ord, m);
    }
    assert addresses[..addresses.Length] == addresses[..];
  }

  // ----- What being sorted means -----

  /** Bytewise order: at the first difference `a` has the lower character, or ends. */
  ghost predicate Below(a: string, b: string) {
    exists k: nat :: k <= |a| && k < |b| && a[..k] == b[..k] && (k == |a| || a[k] < b[k])
  }

  lemma {:induction false} BelowExactly(a: string, b: string)
    ensures StringLess(a, b) <==> Below(a, b)
  {
    if StringLess(a, b) {
      if |a| == 0 || a[0] < b[0] {
        assert a[..0] == b[..0];
      } else {
        BelowExactly(a[1..], b[1..]);
        var c, d := a[1..], b[1..];
        var k: nat :| k <= |c| && k < |d| && c[..k] == d[..k] && (k == |c| || c[k] < d[k]);
        assert a[..k + 1] == [a[0]] + a[1..][..k] && b[..k + 1] == [b[0]] + b[1..][..k];
      }
    }
    if Below(a, b) {
      var k: nat :| k <= |a| && k < |b| && a[..k] == b[..k] && (k == |a| || a[k] < b[k]);
      if k > 0 {
        assert a[0] == a[..k][0] == b[..k][0] == b[0];
        assert a[1..][..k - 1] == a[..k][1..] == b[..k][1..] == b[1..][..k - 1];
        assert Below(a[1..], b[1..]);
        BelowExactly(a[1..], b[1..]);
      }
    }
  }

  /** The first tag with the key is at `p`. */
  ghost predicate FirstAt(tags: seq<Tag>, key: string, p: nat) {
    p < |tags| && tags[p].key == key && forall r :: 0 <= r < p ==> tags[r].key != key
  }

  lemma {:induction false} TagValueExactly(tags: seq<Tag>, key: string)
    ensures TagValue(tags, key).None? <==> forall p: nat :: !FirstAt(tags, key, p)
    ensures forall p: nat :: FirstAt(tags, key, p) ==> TagValue(tags, key) == Some(tags[p].value)
  {
    if |tags| > 0 && tags[0].key != key {
      TagValueExactly(tags[1..], key);
      forall p: nat ensures FirstAt(tags, key, p) <==> p > 0 && FirstAt(tags[1..], key, p - 1) {
        if p > 0 && FirstAt(tags[1..], key, p - 1) {
          forall r | 0 <= r < p ensures tags[r].key != key {
            if r > 0 { assert tags[1..][r - 1] == tags[r]; }
          }
        }
        if p > 0 && FirstAt(tags, key, p) {
          forall r | 0 <= r < p - 1 ensures tags[1..][r].key != key {
            assert tags[1..][r] == tags[r + 1];
          }
        }
      }
      if p: nat :| FirstAt(tags[1..], key, p) { assert FirstAt(tags, key, p + 1); }
    } else if |tags| > 0 {
      assert FirstAt(tags, key, 0);
    }
  }

  /** `a` may stand before `b` in an order by a pointer field. */
  ghost predicate FieldInOrder(a: Address, b: Address, field: Field) {
    field in a.fields && field in b.fields ==> !Below(b.fields[field], a.fields[field])
  }

  ghost predicate DomainInOrder(a: Address, b: Address) {
    !Below(if Domain in b.fields then b.fields[Domain] else "", if Domain in a.fields then a.fields[Domain] else "")
  }

  /** `a` may stand before `b` in an order by a tag: nil tags come last, and the values of the first tags
      with the key ascend. */
  ghost predicate TagInOrder(a: Address, b: Address, key: string) {
    && (a.tags.None? ==> b.tags.None?)
    && (a.tags.Some? && b.tags.Some? ==>
          forall p: nat, q: nat :: FirstAt(a.tags.value, key, p) && FirstAt(b.tags.value, key, q) ==>
            !Below(b.tags.value[q].value, a.tags.value[p].value))
  }

  /** `a` may stand before `b` in the order that sortBy names. */
  ghost predicate MayPrecede(a: Address, b: Address, sortBy: string) {
    && (sortBy == "AllocationId" ==> FieldInOrder(a, b, AllocationId))
    && (sortBy == "AssociationId" ==> FieldInOrder(a, b, AssociationId))
    && (sortBy == "Domain" ==> DomainInOrder(a, b))
    && (sortBy == "InstanceId" ==> FieldInOrder(a, b, InstanceId))
    && (sortBy == "NetworkInterfaceId" ==> FieldInOrder(a, b, NetworkInterfaceId))
    && (sortBy == "NetworkInterfaceOwnerId" ==> FieldInOrder(a, b, NetworkInterfaceOwnerId))
    && (sortBy == "PrivateIpAddress" ==> FieldInOrder(a, b, PrivateIpAddress))
    && (sortBy == "PublicIp" ==> FieldInOrder(a, b, PublicIp))
    && (sortBy == "PublicIpv4Pool" ==> FieldInOrder(a, b, PublicIpv4Pool))
    && forall key :: sortBy == "Tag:" + key ==> TagInOrder(a, b, key)
  }

  ghost predicate Ascending(s: seq<Address>, sortBy: string) {
    forall i, j :: 0 <= i < j < |s| ==> MayPrecede(s[i], s[j], sortBy)
  }

  lemma FieldPrecedes(a: Address, b: Address, field: Field)
    ensures if field.Domain? then !LessBy(b, a, ByField(field)) <==> DomainInOrder(a, b)
            else !LessBy(b, a, ByField(field)) <==> FieldInOrder(a, b, field)
  {
    if FieldOf(a, field).Some? && FieldOf(b, field).Some? {
      BelowExactly(FieldOf(b, field).value, FieldOf(a, field).value);
    }
  }

  lemma TagPrecedes(a: Address, b: Address, key: string)
    ensures !LessBy(b, a, ByTag(key)) <==> TagInOrder(a, b, key)
  {
    if a.tags.Some? && b.tags.Some? {
      TagValueExactly(a.tags.value, key);
      TagValueExactly(b.tags.value, key);
      var va, vb := TagValue(a.tags.value, key), TagValue(b.tags.value, key);
      if va.Some? && vb.Some? {
        BelowExactly(vb.value, va.value);
        var p: nat :| FirstAt(a.tags.value, key, p);
        var q: nat :| FirstAt(b.tags.value, key, q);
      }
      hide StringLess, Below, FirstAt, TagValue;
    }
  }

  lemma Precedes(a: Address, b: Address, sortBy: string)
    ensures !LessBy(b, a, OrderOf(sortBy)) <==> MayPrecede(a, b, sortBy)
  {
    forall field: Field
      ensures if field.Domain? then !LessBy(b, a, ByField(field)) <==> DomainInOrder(a, b)
              else !LessBy(b, a, ByField(field)) <==> FieldInOrder(a, b, field)
    {
      FieldPrecedes(a, b, field);
    }
    if "Tag:" <= sortBy {
      TagPrecedes(a, b, sortBy[4..]);
      assert sortBy == "Tag:" + sortBy[4..] && forall key :: sortBy == "Tag:" + key ==> key == ("Tag:" + key)[4..];
      hide LessBy, TagInOrder, FieldInOrder, DomainInOrder;
      assert sortBy[0] == 'T';
      NoName(sortBy);
    } else {
      hide TagInOrder, FieldInOrder, DomainInOrder, LessBy;
      assert forall key :: "Tag:" <= "Tag:" + key;
      assert !LessBy(b, a, Unordered) by { Unrelated(b, a); }
    }
  }

  lemma Unrelated(a: Address, b: Address)
    ensures !LessBy(a, b, Unordered)
  {
  }

  lemma NoName(sortBy: string)
    requires "Tag:" <= sortBy
    ensures sortBy !in {"AllocationId", "AssociationId", "Domain", "InstanceId", "NetworkInterfaceId",
                        "NetworkInterfaceOwnerId", "PrivateIpAddress", "PublicIp", "PublicIpv4Pool"}
  {
    assert sortBy[0] == "Tag:"[0];
  }

  /** The comparators order by what sortBy names, ascending. */
  lemma SortsByName(s: seq<Address>, sortBy: string)
    ensures Sorted(s, OrderOf(sortBy)) <==> Ascending(s, sortBy)
  {
    forall i, j | 0 <= i < j < |s| ensures !LessBy(s[j], s[i], OrderOf(sortBy)) <==> MayPrecede(s[i], s[j], sortBy) {
      Precedes(s[i], s[j], sortBy);
    }
    hide LessBy, MayPrecede, OrderOf;
  }

  method SortAddressesByTag(addresses: array<Address>, key: string)
    modifies addresses
    ensures multiset(addresses[..]) == multiset(old(addresses[..]))
    ensures !Mixed(multiset(old(addresses[..])), key) ==> Sorted(addresses[..], ByTag(key))
  {
    SortSlice(addresses, ByTag(key));
  }

  /** The pointer field that sortBy names is nil. */
  predicate Lacks(a: Address, sortBy: string) {
    || (sortBy == "AllocationId" && AllocationId !in a.fields)
    || (sortBy == "AssociationId" && AssociationId !in a.fields)
    || (sortBy == "InstanceId" && InstanceId !in a.fields)
    || (sortBy == "NetworkInterfaceId" && NetworkInterfaceId !in a.fields)
    || (sortBy == "NetworkInterfaceOwnerId" && NetworkInterfaceOwnerId !in a.fields)
    || (sortBy == "PrivateIpAddress" && PrivateIpAddress !in a.fields)
    || (sortBy == "PublicIp" && PublicIp !in a.fields)
    || (sortBy == "PublicIpv4Pool" && PublicIpv4Pool !in a.fields)
  }

  /** Sorting has to compare a nil field. */
  ghost predicate Panics(m: multiset<Address>, sortBy: string) {
    |m| > 1 && exists a :: a in m && Lacks(a, sortBy)
  }

  ghost predicate Unmixed(m: multiset<Address>, sortBy: string) {
    forall key :: sortBy == "Tag:" + key ==> !Mixed(m, key)
  }

  /** It names a tag or a field. */
  predicate Orders(sortBy: string) {
    || "Tag:" <= sortBy
    || sortBy in ["AllocationId", "AssociationId", "Domain", "InstanceId", "NetworkInterfaceId",
                  "NetworkInterfaceOwnerId", "PrivateIpAddress", "PublicIp", "PublicIpv4Pool"]
  }

  lemma LacksExactly(a: Address, sortBy: string)
    ensures Lacks(a, sortBy) <==> OrderOf(sortBy).ByField? && FieldOf(a, OrderOf(sortBy).field).None?
  {
    if "Tag:" <= sortBy { NoName(sortBy); }
  }

  lemma OrderExactly(sortBy: string)
    ensures OrderOf(sortBy).Unordered? <==> !Orders(sortBy)
    ensures OrderOf(sortBy).ByTag? ==> sortBy == "Tag:" + OrderOf(sortBy).key
  {
    if "Tag:" <= sortBy { assert sortBy == "Tag:" + sortBy[4..]; }
  }

  /** sortAddressesByField: it panics exactly when it has to compare a nil field, that is, when there are
      at least two addresses and some address lacks the field; the order is then left open. */
  method SortAddressesByField(addresses: array<Address>, sortBy: string) returns (panicked: bool)
    modifies addresses
    ensures var m := multiset(old(addresses[..]));
      && multiset(addresses[..]) == m
      && (panicked <==> Panics(m, sortBy))
      && (!panicked && Unmixed(m, sortBy) ==> Ascending(addresses[..], sortBy))
      && (!Orders(sortBy) ==> addresses[..] == old(addresses[..]))
  {
    hide OrderOf, Mixed, Orders, Lacks, MayPrecede;
    var ord := OrderOf(sortBy);
    OrderExactly(sortBy);
    forall a ensures Lacks(a, sortBy) <==> ord.ByField? && FieldOf(a, ord.field).None? { LacksExactly(a, sortBy); }
    match ord {
      case Unordered =>
      case ByTag(key) => SortAddressesByTag(addresses, key);
      case ByField(field) =>
        var i := 0;
        while i < addresses.Length && FieldOf(addresses[i], field).Some?
          invariant i <= addresses.Length && forall j :: 0 <= j < i ==> FieldOf(addresses[j], field).Some?
        {
          i := i + 1;
        }
        HaveAll(addresses[..], field);
        if addresses.Length > 1 && i < addresses.Length {
          return true;
        }
        SortSlice(addresses, ord);
    }
    SortsByName(addresses[..], sortBy);
    return false;
  }

  lemma HaveAll(s: seq<Address>, field: Field)
    ensures AllHave(multiset(s), field) <==> forall i :: 0 <= i < |s| ==> FieldOf(s[i], field).Some?
  {
    if forall i :: 0 <= i < |s| ==> FieldOf(s[i], field).Some? {
      forall a | a in multiset(s) ensures FieldOf(a, field).Some? {
        assert a in s;
      }
    }
    forall i | 0 <= i < |s| ensures s[i] in multiset(s) {
    }
  }

  /** `s` is sorted but for position `j`, which is not greater than what follows it. */
  ghost predicate SortedBut(s: seq<Address>, j: nat, ord: OrderBy) {
    && (forall p, q :: 0 <= p < q < |s| && p != j && q != j ==> !LessBy(s[q], s[p], ord))
    && (forall q :: j < q < |s| && j < |s| ==> !LessBy(s[q], s[j], ord))
  }

  function Swapped(s: seq<Address>, j: nat): (t: seq<Address>)
    requires 0 < j < |s|
    ensures |t| == |s|
  {
    s[j := s[j - 1]][j - 1 := s[j]]
  }

  method Swap(addresses: array<Address>, j: nat)
    requires 0 < j < addresses.Length
    modifies addresses
    ensures addresses[..] == Swapped(old(addresses[..]), j) && multiset(addresses[..]) == multiset(old(addresses[..]))
  {
    addresses[j], addresses[j - 1] := addresses[j - 1], addresses[j];
  }

  /** The comparators as they are called. */
  method Compare(a: Address, b: Address, ord: OrderBy) returns (less: bool)
    requires ord.ByField? ==> FieldOf(a, ord.field).Some? && FieldOf(b, ord.field).Some?
    ensures less == LessBy(a, b, ord)
  {
    match ord {
      case Unordered => return false;
      case ByTag(key) => less := Less(a, b, key);
      case ByField(field) => return StringLess(FieldOf(a, field).value, FieldOf(b, field).value);
    }
  }

  method Insert(addresses: array<Address>, i: nat, ord: OrderBy, ghost m: multiset<Address>)
    requires i < addresses.Length && multiset(addresses[..]) == m && (ord.ByField? ==> AllHave(m, ord.field))
    requires WeaklyOrdered(m, ord) ==> Sorted(addresses[..i], ord)
    modifies addresses
    ensures multiset(addresses[..]) == m
    ensures WeaklyOrdered(m, ord) ==> Sorted(addresses[..i + 1], ord)
  {
    hide WeaklyOrdered, LessBy, Swapped, Sorted, SortedBut;
    var j: nat := i;
    var go := true;
    if WeaklyOrdered(m, ord) { SortedButLast(addresses[..], i, ord); }
    while j > 0 && go
      invariant j <= i && multiset(addresses[..]) == m
      invariant WeaklyOrdered(m, ord) ==> SortedBut(addresses[..i + 1], j, ord)
      invariant !go ==> j > 0 && !LessBy(addresses[j], addresses[j - 1], ord)
      decreases j, go
    {
      assert addresses[j] in addresses[..] && addresses[j - 1] in addresses[..];
      go := Compare(addresses[j], addresses[j - 1], ord);
      if go {
        ghost var before := addresses[..];
        Swap(addresses, j);
        if WeaklyOrdered(m, ord) { SwapKeeps(before, i, j, ord); }
        j := j - 1;
      }
    }
    if WeaklyOrdered(m, ord) { InPlace(addresses[..], i, j, ord, m); }
  }

  lemma SortedButLast(s: seq<Address>, i: nat, ord: OrderBy)
    requires i < |s| && Sorted(s[..i], ord)
    ensures SortedBut(s[..i + 1], i, ord)
  {
    forall p, q | 0 <= p < q < i ensures !LessBy(s[q], s[p], ord) {
      assert s[..i][q] == s[q] && s[..i][p] == s[p];
    }
  }

  /** Once position `j` is not less than its predecessor, everything is sorted. */
  lemma InPlace(s: seq<Address>, i: nat, j: nat, ord: OrderBy, m: multiset<Address>)
    requires j <= i < |s| && SortedBut(s[..i + 1], j, ord) && WeaklyOrdered(m, ord) && multiset(s) == m
    requires j > 0 ==> !LessBy(s[j], s[j - 1], ord)
    ensures Sorted(s[..i + 1], ord)
  {
    hide WeaklyOrdered, LessBy;
    var t := s[..i + 1];
    forall p | 0 <= p < j ensures !LessBy(t[j], t[p], ord) {
      assert s[p] in s && s[j - 1] in s && s[j] in s;
      if p < j - 1 { NotLessTransitive(m, ord, t[p], t[j - 1], t[j]); }
    }
  }

  lemma SwapKeeps(s: seq<Address>, i: nat, j: nat, ord: OrderBy)
    requires 0 < j <= i < |s| && SortedBut(s[..i + 1], j, ord) && LessBy(s[j], s[j - 1], ord)
    ensures SortedBut(Swapped(s, j)[..i + 1], j - 1, ord)
  {
    StrictPartialOrder(s[j], s[j - 1], s[j], ord);
    hide LessBy;
    assert Swapped(s, j)[..i + 1] == Swapped(s[..i + 1], j);
  }
}
