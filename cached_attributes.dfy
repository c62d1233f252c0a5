/**
 * Cached attributes: the descriptors that `@cached` installs on a class. Each
 * access of the attribute goes through the cache manager under an integer id
 * derived from the attribute's key: '<module>.<class>.<attribute>' for a
 * singleton (component) class, with ':' and a per-instance string appended for
 * other classes.
 */
module CachedAttributes {
  import opened Wrappers
  import opened CacheKeys
  import opened CacheManagement

  /** The identity of a descriptor object, as compared by `is`. */
  type DescriptorId = int

  /** A class as key derivation sees it: its module, its name and the descriptors in its own `__dict__`. */
  datatype PyClass = PyClass(moduleName: string, name: string, attributes: map<string, DescriptorId>)

  /** The class an attribute was looked up through, with its method resolution order (the class first). */
  datatype OwnerType = OwnerType(cls: PyClass, mro: seq<PyClass>)

  /** `cls.__dict__.get(attr) is descriptor`. */
  predicate Holds(cls: PyClass, attr: string, descriptor: DescriptorId) {
    attr in cls.attributes && cls.attributes[attr] == descriptor
  }

  /**
   * The class the key is named after: the first class of `mro` that holds the
   * descriptor itself under `attr`, or `cls` when none does.
   */
  function DefiningClass(cls: PyClass, mro: seq<PyClass>, attr: string, descriptor: DescriptorId): (c: PyClass)
    ensures (forall i :: 0 <= i < |mro| ==> !Holds(mro[i], attr, descriptor)) ==> c == cls
    ensures (exists i :: 0 <= i < |mro| && Holds(mro[i], attr, descriptor)) ==>
      exists i :: 0 <= i < |mro| && c == mro[i] && Holds(mro[i], attr, descriptor)
        && forall j :: 0 <= j < i ==> !Holds(mro[j], attr, descriptor)
    decreases |mro|
  {
    if mro == [] then cls
    else if Holds(mro[0], attr, descriptor) then mro[0]
    else
      var c := DefiningClass(cls, mro[1..], attr, descriptor);
      assert forall i :: 0 < i < |mro| ==> mro[i] == mro[1..][i - 1];
      c
  }

  /** '%s.%s.%s' % (module, class name, attribute). */
  function KeyName(c: PyClass, attr: string): string {
    c.moduleName + "." + c.name + "." + attr
  }

  /** The key of the attribute `attr` held by `descriptor`, looked up through `owner`. */
  function AttributeKey(owner: OwnerType, attr: string, descriptor: DescriptorId): string {
    KeyName(DefiningClass(owner.cls, owner.mro, attr, descriptor), attr)
  }

  /** `make_key(cls)`: searches the method resolution order for the class that holds the descriptor. */
  method MakeKey(owner: OwnerType, attr: string, descriptor: DescriptorId) returns (key: string)
    ensures key == AttributeKey(owner, attr, descriptor)
  {
    var cls := owner.cls;
    var i := 0;
    while i < |owner.mro|
      invariant 0 <= i <= |owner.mro|
      invariant DefiningClass(owner.cls, owner.mro, attr, descriptor)
             == DefiningClass(owner.cls, owner.mro[i..], attr, descriptor)
    {
      var base := owner.mro[i];
      if attr in base.attributes && base.attributes[attr] == descriptor {
        cls := base;
        break;
      }
      assert owner.mro[i..][1..] == owner.mro[i + 1..];
      i := i + 1;
    }
    key := cls.moduleName + "." + cls.name + "." + attr;
  }

  /** Classes ahead of the one holding the descriptor do not change the key. */
  lemma {:induction false} SkipNonHolders(cls: PyClass, before: seq<PyClass>, rest: seq<PyClass>, attr: string,
                                          descriptor: DescriptorId)
    requires forall i :: 0 <= i < |before| ==> !Holds(before[i], attr, descriptor)
    ensures DefiningClass(cls, before + rest, attr, descriptor) == DefiningClass(cls, rest, attr, descriptor)
    decreases |before|
  {
    if before == [] {
      assert before + rest == rest;
    } else {
      var all := before + rest;
      assert all[0] == before[0] && !Holds(all[0], attr, descriptor);
      assert all[1..] == before[1..] + rest;
      assert DefiningClass(cls, all, attr, descriptor) == DefiningClass(cls, all[1..], attr, descriptor);
      assert forall i :: 0 <= i < |before| - 1 ==> before[1..][i] == before[i + 1];
      SkipNonHolders(cls, before[1..], rest, attr, descriptor);
    }
  }

  /**
   * A subclass that inherits the attribute gets the same key as the class that
   * defines it, so every subclass shares one cache entry.
   */
  lemma InheritedKey(sub: OwnerType, base: OwnerType, between: seq<PyClass>, attr: string, descriptor: DescriptorId)
    requires base.mro != [] && Holds(base.mro[0], attr, descriptor)
    requires sub.mro == between + base.mro
    requires forall i :: 0 <= i < |between| ==> !Holds(between[i], attr, descriptor)
    ensures AttributeKey(sub, attr, descriptor) == AttributeKey(base, attr, descriptor) == KeyName(base.mro[0], attr)
  {
    SkipNonHolders(sub.cls, between, base.mro, attr, descriptor);
  }

  // ---------------------------------------------------------------------------
  // Singleton attributes

  /** The descriptor for an attribute of a singleton class; `id` remembers the key's id once derived. */
  class SingletonProperty {
    const descriptor: DescriptorId
    const attr: string
    var id: Option<int>

    constructor(descriptor: DescriptorId, attr: string)
      ensures this.descriptor == descriptor && this.attr == attr && id.None?
    {
      this.descriptor := descriptor;
      this.attr := attr;
      id := None;
    }

    /** The id this descriptor uses once looked up through `owner`: the remembered one, else the key's hash. */
    function IdThrough(owner: OwnerType): int
      reads this
    {
      if id.Some? then id.value else KeyHash(AttributeKey(owner, attr, descriptor))
    }

    /** `self.id`, computed with `key_to_id(self.make_key(owner))` on first use. */
    method Id(owner: OwnerType, registry: KeyRegistry) returns (result: int)
      modifies this, registry
      ensures result == old(IdThrough(owner)) && id == Some(result)
      ensures old(id).Some? ==> registry.idToKey == old(registry.idToKey)
      ensures old(id).None? ==> registry.idToKey == old(registry.idToKey)[result := AttributeKey(owner, attr, descriptor)]
    {
      if id.Some? {
        result := id.value;
      } else {
        var key := MakeKey(owner, attr, descriptor);
        result := registry.KeyToId(key);
        id := Some(result);
      }
    }

    /** `__get__(instance, owner)`: the managed value under the attribute's id. */
    method Get<D, O>(instance: O, owner: OwnerType, manager: CacheManager<D>, retriever: O -> Fetched<D>)
      returns (value: Fetched<D>)
      requires manager.Valid()
      modifies this, manager, manager.registry
      ensures var g := GetStep(old(manager.State()), manager.store.rows, old(IdThrough(owner)), retriever(instance));
        id == Some(old(IdThrough(owner))) && value == g.value && manager.State() == g.state
      ensures old(id).Some? ==> manager.registry.idToKey == old(manager.registry.idToKey)
      ensures old(id).None? ==>
        manager.registry.idToKey == old(manager.registry.idToKey)[old(IdThrough(owner)) := AttributeKey(owner, attr, descriptor)]
      ensures manager.Valid()
    {
      var key := Id(owner, manager.registry);
      value := manager.Get(key, retriever, instance);
    }

    /** `__delete__(instance)`: invalidates the attribute's id. */
    method Delete<D>(instanceClass: OwnerType, manager: CacheManager<D>)
      requires manager.Valid()
      modifies this, manager, manager.store, manager.registry
      ensures var key := old(IdThrough(instanceClass));
        id == Some(key)
        && manager.store.rows == Bump(old(manager.store.rows), key, manager.registry.KeyFor(key))
        && manager.State() == InvalidateStep(old(manager.State()), key)
      ensures old(id).Some? ==> manager.registry.idToKey == old(manager.registry.idToKey)
      ensures old(id).None? ==>
        manager.registry.idToKey
          == old(manager.registry.idToKey)[old(IdThrough(instanceClass)) := AttributeKey(instanceClass, attr, descriptor)]
      ensures manager.Valid()
    {
      var key := Id(instanceClass, manager.registry);
      manager.Invalidate(key);
    }
  }

  // ---------------------------------------------------------------------------
  // Per-instance attributes

  /** The value of an instance's key attribute: the string it was set to, or the id that replaced it. */
  datatype KeyValue = Text(text: string) | Number(number: int)

  /** An object with a cached attribute: the attributes named by descriptors as key attributes. */
  class CachedObject {
    var attributes: map<string, KeyValue>

    constructor(attributes: map<string, KeyValue>)
      ensures this.attributes == attributes
    {
      this.attributes := attributes;
    }
  }

  /** The id a key attribute value stands for under the attribute key `key`. */
  function InstanceId(v: KeyValue, key: string): int {
    match v
    case Text(s) => KeyHash(key + ":" + s)
    case Number(n) => n
  }

  /** Replacing the key attribute by its id changes nothing about later lookups: the id is stable. */
  lemma InstanceIdStable(v: KeyValue, key: string, laterKey: string)
    ensures InstanceId(Number(InstanceId(v, key)), laterKey) == InstanceId(v, key)
  {
  }

  /** Two instances whose key strings differ get different keys, so they hash separately. */
  lemma InstanceKeysDiffer(key: string, a: string, b: string)
    requires a != b
    ensures key + ":" + a != key + ":" + b
  {
    var p := key + ":";
    assert (p + a)[|p|..] == a && (p + b)[|p|..] == b;
  }

  /** What reading or deleting a per-instance attribute comes to: the effect, or the `getattr` failure. */
  datatype Access<T> = Done(value: T) | KeyAttributeError

  /** The descriptor for an attribute whose key carries a per-instance string held in `keyAttr`. */
  class InstanceProperty {
    const descriptor: DescriptorId
    const attr: string
    const keyAttr: Option<string>

    constructor(descriptor: DescriptorId, attr: string, keyAttr: Option<string>)
      ensures this.descriptor == descriptor && this.attr == attr && this.keyAttr == keyAttr
    {
      this.descriptor := descriptor;
      this.attr := attr;
      this.keyAttr := keyAttr;
    }

    /** Whether `getattr(instance, self.key_attr)` finds a value. */
    predicate HasKey(instance: CachedObject)
      reads instance
    {
      keyAttr.Some? && keyAttr.value in instance.attributes
    }

    /**
     * The id of the instance's entry: a string key attribute is hashed into an
     * id, which replaces it on the instance.
     */
    method Id(instance: CachedObject, owner: OwnerType, registry: KeyRegistry) returns (result: Access<int>)
      modifies instance, registry
      ensures !old(HasKey(instance)) ==>
        result.KeyAttributeError? && instance.attributes == old(instance.attributes)
        && registry.idToKey == old(registry.idToKey)
      ensures old(HasKey(instance)) ==>
        var v := old(instance.attributes)[keyAttr.value];
        var key := AttributeKey(owner, attr, descriptor);
        result == Done(InstanceId(v, key))
        && instance.attributes == old(instance.attributes)[keyAttr.value := Number(InstanceId(v, key))]
        && (v.Number? ==> registry.idToKey == old(registry.idToKey))
        && (v.Text? ==> registry.idToKey == old(registry.idToKey)[InstanceId(v, key) := key + ":" + v.text])
    {
      if keyAttr.None? || keyAttr.value !in instance.attributes {
        return KeyAttributeError;
      }
      var v := instance.attributes[keyAttr.value];
      match v
      case Number(n) =>
        result := Done(n);
      case Text(s) =>
        var key := MakeKey(owner, attr, descriptor);
        var n := registry.KeyToId(key + ":" + s);
        instance.attributes := instance.attributes[keyAttr.value := Number(n)];
        result := Done(n);
    }

    /** `__get__(instance, owner)`. */
    method Get<D>(instance: CachedObject, owner: OwnerType, manager: CacheManager<D>,
                  retriever: CachedObject -> Fetched<D>) returns (value: Access<Fetched<D>>)
      requires manager.Valid()
      modifies instance, manager, manager.registry
      ensures !old(HasKey(instance)) ==>
        value.KeyAttributeError? && manager.State() == old(manager.State())
        && instance.attributes == old(instance.attributes) && manager.registry.idToKey == old(manager.registry.idToKey)
      ensures old(HasKey(instance)) ==>
        var v := old(instance.attributes)[keyAttr.value];
        var attrKey := AttributeKey(owner, attr, descriptor);
        var key := InstanceId(v, attrKey);
        var g := GetStep(old(manager.State()), manager.store.rows, key, retriever(instance));
        value == Done(g.value) && manager.State() == g.state
        && instance.attributes == old(instance.attributes)[keyAttr.value := Number(key)]
        && (v.Number? ==> manager.registry.idToKey == old(manager.registry.idToKey))
        && (v.Text? ==> manager.registry.idToKey == old(manager.registry.idToKey)[key := attrKey + ":" + v.text])
      ensures manager.Valid()
    {
      var key := Id(instance, owner, manager.registry);
      if key.KeyAttributeError? {
        return KeyAttributeError;
      }
      var fetched := manager.Get(key.value, retriever, instance);
      value := Done(fetched);
    }

    /** `__delete__(instance)`. */
    method Delete<D>(instance: CachedObject, instanceClass: OwnerType, manager: CacheManager<D>)
      returns (outcome: Access<()>)
      requires manager.Valid()
      modifies instance, manager, manager.store, manager.registry
      ensures !old(HasKey(instance)) ==>
        outcome.KeyAttributeError? && manager.State() == old(manager.State())
        && manager.store.rows == old(manager.store.rows)
        && instance.attributes == old(instance.attributes) && manager.registry.idToKey == old(manager.registry.idToKey)
      ensures old(HasKey(instance)) ==>
        var v := old(instance.attributes)[keyAttr.value];
        var attrKey := AttributeKey(instanceClass, attr, descriptor);
        var key := InstanceId(v, attrKey);
        outcome.Done?
        && manager.store.rows == Bump(old(manager.store.rows), key, manager.registry.KeyFor(key))
        && manager.State() == InvalidateStep(old(manager.State()), key)
        && instance.attributes == old(instance.attributes)[keyAttr.value := Number(key)]
        && (v.Number? ==> manager.registry.idToKey == old(manager.registry.idToKey))
        && (v.Text? ==> manager.registry.idToKey == old(manager.registry.idToKey)[key := attrKey + ":" + v.text])
      ensures manager.Valid()
    {
      var key := Id(instance, instanceClass, manager.registry);
      if key.KeyAttributeError? {
        return KeyAttributeError;
      }
      manager.Invalidate(key.value);
      outcome := Done(());
    }
  }

  // ---------------------------------------------------------------------------
  // The decorator

  /** What `cached` is applied to: a retrieval function, the name of a key attribute, or nothing. */
  datatype DecoratorArgument = RetrieverFunction(name: string) | KeyAttribute(keyAttr: string) | NoArgument

  /** The kind of descriptor installed for a retrieval function named `attr`. */
  datatype CachedAttribute = Singleton(attr: string) | PerInstance(attr: string, keyAttr: Option<string>)

  /** The result of `cached(arg)`: a descriptor right away, or a decorator still waiting for the function. */
  datatype Decoration = Property(attribute: CachedAttribute) | Decorator(keyAttr: Option<string>)

  /** `cached(fn_or_attr)`. */
  function Cached(arg: DecoratorArgument): (d: Decoration)
    ensures arg.RetrieverFunction? <==> d.Property?
    ensures arg.RetrieverFunction? ==> d.attribute == Singleton(arg.name)
    ensures arg.KeyAttribute? ==> d == Decorator(Some(arg.keyAttr))
    ensures arg.NoArgument? ==> d == Decorator(None)
  {
    match arg
    case RetrieverFunction(name) => Property(Singleton(name))
    case KeyAttribute(k) => Decorator(Some(k))
    case NoArgument => Decorator(None)
  }

  /** The inner `decorator(fn)`: a per-instance descriptor keyed by the argument given to `cached`. */
  function ApplyDecorator(keyAttr: Option<string>, fnName: string): (a: CachedAttribute)
    ensures a.PerInstance? && a.attr == fnName && a.keyAttr == keyAttr
  {
    PerInstance(fnName, keyAttr)
  }
}
