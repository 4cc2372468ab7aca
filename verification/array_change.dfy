/** `src/array-change.js`: a list wrapper that boxes each element in a mutable
    item, and four loops that show which updates reach the caller's data: an
    update through a shared object does, an update of a copied number does not. */
module ArrayChange {
  import opened Basics

  /** `ListItem`: a mutable box around one value. */
  class ListItem<T> {
    var value: T

    constructor (value: T)
      ensures this.value == value
    {
      this.value := value;
    }
  }

  /** The record the person tests use. */
  class Person {
    var name: string
    var age: int

    constructor (name: string, age: int)
      ensures this.name == name && this.age == age
    {
      this.name := name;
      this.age := age;
    }
  }

  /** The values held by a sequence of boxes, in order. */
  function Unwrap<T>(items: seq<ListItem<T>>): (r: seq<T>)
    reads items
    ensures |r| == |items|
    ensures forall i :: 0 <= i < |items| ==> r[i] == items[i].value
    decreases |items|
  {
    if items == [] then [] else Unwrap(items[..|items| - 1]) + [items[|items| - 1].value]
  }

  predicate Distinct<T>(items: seq<ListItem<T>>)
  {
    forall a, b :: 0 <= a < b < |items| ==> items[a] != items[b]
  }

  /** `MendixList`. */
  class MendixList<T> {
    var items: seq<ListItem<T>>

    /** Wraps each initial value in a new box, in order. */
    constructor (initialItems: seq<T>)
      ensures |items| == |initialItems| && Distinct(items)
      ensures forall i :: 0 <= i < |items| ==> fresh(items[i])
      ensures ToArray() == initialItems
    {
      var wrapped: seq<ListItem<T>> := [];
      var i := 0;
      while i < |initialItems|
        invariant 0 <= i <= |initialItems| && |wrapped| == i
        invariant forall k :: 0 <= k < i ==> fresh(wrapped[k]) && wrapped[k].value == initialItems[k]
        invariant Distinct(wrapped)
      {
        var item := new ListItem(initialItems[i]);
        wrapped := wrapped + [item];
        i := i + 1;
      }
      items := wrapped;
    }

    /** `get`: the box at `index`, or `None` (`undefined`) outside the list. */
    function Get(index: int): (r: Option<ListItem<T>>)
      reads this
      ensures r.Some? <==> 0 <= index < |items|
      ensures r.Some? ==> r.value == items[index]
    {
      if 0 <= index < |items| then Some(items[index]) else None
    }

    /** `length`. */
    function Length(): nat
      reads this
    {
      |items|
    }

    /** `toArray`: the boxed values, in order. */
    function ToArray(): (r: seq<T>)
      reads this, items
      ensures |r| == Length()
      ensures forall i :: 0 <= i < |r| ==> r[i] == items[i].value
    {
      Unwrap(items)
    }
  }

  /** One more element of a prefix adds one occurrence of it and no other. */
  lemma CountStep<X>(s: seq<X>, i: nat)
    requires i < |s|
    ensures multiset(s[..i + 1]) == multiset(s[..i]) + multiset{s[i]}
  {
    assert s[..i + 1] == s[..i] + [s[i]];
  }

  /** `test1`: increments `age` through the boxes; the boxes share the person
      objects, so every listed person ages once per time it is listed, and the
      array read back holds the same persons in the same order. */
  method Test1(personList: seq<Person>) returns (result: seq<Person>)
    modifies set p | p in personList
    ensures result == personList
    ensures forall p :: p in personList ==> p.age == old(p.age) + multiset(personList)[p] && p.name == old(p.name)
  {
    var mendixList := new MendixList(personList);
    AgeThroughList(mendixList, personList);
    result := mendixList.ToArray();
  }

  /** The loop of `test1`: `age += 1` on the person in each box. */
  method AgeThroughList(mendixList: MendixList<Person>, personList: seq<Person>)
    requires |mendixList.items| == |personList|
    requires forall k :: 0 <= k < |personList| ==> mendixList.items[k].value == personList[k]
    modifies set p | p in personList
    ensures forall p :: p in personList ==> p.age == old(p.age) + multiset(personList)[p] && p.name == old(p.name)
  {
    var i := 0;
    while i < mendixList.Length()
      invariant 0 <= i <= |personList|
      invariant forall p :: p in personList ==> p.age == old(p.age) + multiset(personList[..i])[p] && p.name == old(p.name)
    {
      var currentPerson := mendixList.Get(i).value;
      CountStep(personList, i);
      currentPerson.value.age := currentPerson.value.age + 1;
      i := i + 1;
    }
    assert personList[..i] == personList;
  }

  /** `test2`: increments `age` through the array directly, with the same effect
      on the persons as `test1`. */
  method Test2(personList: seq<Person>)
    modifies set p | p in personList
    ensures forall p :: p in personList ==> p.age == old(p.age) + multiset(personList)[p] && p.name == old(p.name)
  {
    var i := 0;
    while i < |personList|
      invariant 0 <= i <= |personList|
      invariant forall p :: p in personList ==> p.age == old(p.age) + multiset(personList[..i])[p] && p.name == old(p.name)
    {
      var item := personList[i];
      CountStep(personList, i);
      item.age := item.age + 1;
      i := i + 1;
    }
    assert personList[..i] == personList;
  }

  /** `test3`: each element is copied into a local and the copy incremented;
      the array it logs afterwards still holds the original numbers. The loop
      needs no invariant about the array: the method may not modify it at all,
      which is exactly the point the source makes. */
  method Test3(list: array<int>) returns (logged: seq<int>)
    ensures logged == old(list[..])
  {
    var i := 0;
    while i < list.Length
      invariant 0 <= i <= list.Length
    {
      var item := list[i];
      item := item + 1;
      i := i + 1;
    }
    logged := list[..];
  }

  /** `test4`: the numbers are boxed and the boxes incremented; the array read
      back holds each number plus one, and the original array is unchanged. */
  method Test4(list: array<int>) returns (personList: seq<int>)
    ensures list[..] == old(list[..])
    ensures |personList| == list.Length
    ensures forall k :: 0 <= k < list.Length ==> personList[k] == list[k] + 1
  {
    var mendixList := new MendixList(list[..]);
    var i := 0;
    while i < mendixList.Length()
      invariant 0 <= i <= list.Length == |mendixList.items|
      invariant Distinct(mendixList.items)
      invariant forall k :: 0 <= k < list.Length ==> fresh(mendixList.items[k])
      invariant forall k :: 0 <= k < i ==> mendixList.items[k].value == list[k] + 1
      invariant forall k :: i <= k < list.Length ==> mendixList.items[k].value == list[k]
    {
      var currentPerson := mendixList.Get(i).value;
      currentPerson.value := currentPerson.value + 1;
      i := i + 1;
    }
    personList := mendixList.ToArray();
  }

  /** `test1` on its own data: Alice, Bob and Charlie come back aged 31, 26 and
      36, the output the file's header comment records. */
  method Test1Demo() returns (result: seq<Person>)
    ensures |result| == 3
    ensures result[0].name == "Alice" && result[0].age == 31
    ensures result[1].name == "Bob" && result[1].age == 26
    ensures result[2].name == "Charlie" && result[2].age == 36
  {
    var alice := new Person("Alice", 30);
    var bob := new Person("Bob", 25);
    var charlie := new Person("Charlie", 35);
    var personList := [alice, bob, charlie];
    assert multiset(personList)[alice] == 1 && multiset(personList)[bob] == 1 && multiset(personList)[charlie] == 1;
    result := Test1(personList);
  }
}
