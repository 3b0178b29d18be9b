/**
 * `cached_property`, defined identically in `domaintools/__init__.py` and
 * `domaintools/utils.py`: the first read of a property computes it from the
 * object and stores the result as the attribute `__<name>`; later reads return
 * the stored attribute. A computation that raises stores nothing.
 */
module Caching {
  import opened Wrappers

  /** A property: its name and how it is computed from the object's own state. */
  datatype Property<!B, V> = Property(name: string, compute: B -> Result<V>)

  /** `'__%s' % f.__name__`: the attribute that caches a property. */
  function Key(name: string): (k: string)
    ensures |k| == |name| + 2 && k[..2] == "__" && k[2..] == name
  {
    "__" + name
  }

  /** Distinct properties are cached under distinct attributes. */
  lemma KeyInjective(a: string, b: string)
    ensures Key(a) == Key(b) <==> a == b
  {
    if Key(a) == Key(b) {
      assert a == Key(a)[2..] == Key(b)[2..] == b;
    }
  }

  /** An object whose properties are cached in its attributes. */
  class Instance<B, V> {
    /** The state the properties are computed from, fixed by the constructor. */
    const base: B
    /** The attributes set on the object so far. */
    var attrs: map<string, V>

    constructor (base: B)
      ensures this.base == base && attrs == map[]
    {
      this.base := base;
      attrs := map[];
    }

    /** The cached value of a property, if any, is the value it computes. */
    ghost predicate Coherent(prop: Property<B, V>)
      reads this
    {
      Key(prop.name) in attrs ==> prop.compute(base) == Success(attrs[Key(prop.name)])
    }

    /**
     * Reading the property through the cache: the stored attribute if there
     * is one, else the computed value, stored when the computation succeeds.
     * Only the property's own attribute changes.
     */
    method Read(prop: Property<B, V>) returns (r: Result<V>)
      modifies this
      ensures Key(prop.name) in old(attrs) ==>
        r == Success(old(attrs)[Key(prop.name)]) && attrs == old(attrs)
      ensures Key(prop.name) !in old(attrs) ==> r == prop.compute(base)
      ensures Key(prop.name) !in old(attrs) && r.Success? ==>
        attrs == old(attrs)[Key(prop.name) := r.value]
      ensures r.Failure? ==> attrs == old(attrs)
      ensures old(Coherent(prop)) ==> r == prop.compute(base) && Coherent(prop)
      ensures forall k :: k != Key(prop.name) ==>
        (k in attrs <==> k in old(attrs)) && (k in attrs ==> attrs[k] == old(attrs)[k])
    {
      var key := Key(prop.name);
      if key in attrs {
        r := Success(attrs[key]);
      } else {
        r := prop.compute(base);
        if r.Success? {
          attrs := attrs[key := r.value];
        }
      }
    }
  }

  /**
   * Caching is invisible: on a fresh object, reading a property twice gives
   * what it computes both times, and a successful first read leaves the value
   * cached.
   */
  method ReadTwice<B, V>(base: B, prop: Property<B, V>) returns (first: Result<V>, second: Result<V>)
    ensures first == prop.compute(base) && second == prop.compute(base)
  {
    var obj := new Instance(base);
    first := obj.Read(prop);
    assert first.Success? ==> Key(prop.name) in obj.attrs;
    second := obj.Read(prop);
  }
}
