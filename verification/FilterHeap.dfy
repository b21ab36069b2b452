/** Filters in memory, and their deep copies (src/lib/wsman-filter.c). */
module FilterHeap {
  import opened Basics
  import opened Xml
  import opened Epr
  import opened EprHeap
  import opened Filters

  /** filter_t, with every selector slot written. */
  class FilterObj {
    var dialect: Option<Dialect>
    var query: Option<string>
    var epr: EprObj?
    var selectors: array<Slot>
    var assocType: int
    var assocClass: Option<string>
    var resultClass: Option<string>
    var role: Option<string>
    var resultRole: Option<string>
    var resultProp: seq<string>
    ghost var Pool: set<object>   // what the selectors own
    ghost var Repr: set<object>   // everything this filter owns
    ghost var Val: Filter         // the filter it stands for

    ghost predicate Valid()
      reads this, Repr
    {
      && this in Repr && selectors in Repr && Pool <= Repr
      && Val == Filter(dialect, query, Val.epr, Val.selectors, 0, assocType, assocClass, resultClass, role,
                       resultRole, resultProp)
      && SlotsValid(selectors[..], Val.selectors, Pool)
      && (if epr == null then Val.epr.None?
          else epr in Repr && epr.Repr <= Repr && epr.Valid() && Val.epr == Some(epr.Val))
    }

    /** A filter that owns the given reference and selectors. */
    constructor (dialect: Option<Dialect>, query: Option<string>, epr: EprObj?, selectors: array<Slot>, assocType: int,
                 assocClass: Option<string>, resultClass: Option<string>, role: Option<string>,
                 resultRole: Option<string>, resultProp: seq<string>, ghost kvs: seq<KeyValue>, ghost pool: set<object>)
      requires SlotsValid(selectors[..], kvs, pool) && (epr != null ==> epr.Valid())
      ensures Valid() && fresh(Repr - pool - {selectors} - if epr == null then {} else epr.Repr)
      ensures Val == Filter(dialect, query, ValueIn(epr), kvs, 0, assocType, assocClass, resultClass, role,
                            resultRole, resultProp)
    {
      this.dialect, this.query, this.epr, this.selectors := dialect, query, epr, selectors;
      this.assocType, this.assocClass, this.resultClass := assocType, assocClass, resultClass;
      this.role, this.resultRole, this.resultProp := role, resultRole, resultProp;
      Pool, Repr := pool, pool + {this, selectors} + if epr == null then {} else epr.Repr;
      Val := Filter(dialect, query, ValueIn(epr), kvs, 0, assocType, assocClass, resultClass, role,
                    resultRole, resultProp);
    }
  }

  predicate CopyableFilter(f: Filter) {
    (f.epr.Some? ==> Copyable(f.epr.value)) && forall kv :: kv in f.selectors ==> CopyableIn(kv)
  }

  /** `g` is what a copy of `f` may be: the role is not copied, and NULL addresses become undefined. */
  ghost predicate FilterCopyOf(f: Filter, g: Filter) {
    && g == f.(role := None, epr := g.epr, selectors := g.selectors)
    && (if f.epr.None? then g.epr.None? else g.epr.Some? && CopyOf(f.epr.value, g.epr.value))
    && |g.selectors| == |f.selectors|
    && forall i :: 0 <= i < |f.selectors| ==> CopyOfIn(f.selectors[i], g.selectors[i])
  }

  /** A copy is equal, whatever the undefined addresses are. */
  ghost predicate FilterCopiesWell(f: Filter) {
    forall g :: FilterCopyOf(f, g) ==> g == f
  }

  /** The selectors of a filter, as an EPR that has an address. */
  function AsEpr(s: seq<KeyValue>): Epr {
    Epr(Some(""), None, s)
  }

  lemma {:induction false} FilterCopySame(f: Filter, g: Filter)
    requires FilterCopyOf(f, g) && f.role.None? && Addressed(AsEpr(f.selectors))
    requires f.epr.Some? ==> Addressed(f.epr.value)
    ensures g == f
  {
    if f.epr.Some? { CopySame(f.epr.value, g.epr.value); }
    CopySame(AsEpr(f.selectors), AsEpr(g.selectors));
  }

  lemma {:induction false} FilterCopyOfSelf(f: Filter)
    ensures FilterCopyOf(f, f.(role := None))
  {
    if f.epr.Some? { CopyOfSelf(f.epr.value); }
    CopyOfSelf(AsEpr(f.selectors));
  }

  lemma {:induction false} FilterOtherCopy(f: Filter) returns (g: Filter)
    requires f.role.Some? || !Addressed(AsEpr(f.selectors)) || (f.epr.Some? && !Addressed(f.epr.value))
    ensures FilterCopyOf(f, g) && g != f
  {
    FilterCopyOfSelf(f);
    g := f.(role := None);
    if f.role.None? {
      if f.epr.Some? && !Addressed(f.epr.value) {
        var c := OtherCopy(f.epr.value);
        g := g.(epr := Some(c));
      } else {
        var c := OtherCopy(AsEpr(f.selectors));
        g := g.(selectors := c.selectors);
      }
    }
  }

  /** A copy is always equal exactly when the filter has no role and its references, at every
      depth, have an address. */
  lemma {:induction false} FilterCopyExactly(f: Filter)
    ensures FilterCopiesWell(f) <==>
            && f.role.None? && (f.epr.Some? ==> Addressed(f.epr.value))
            && forall kv :: kv in f.selectors ==> AddressedIn(kv)
  {
    if f.role.None? && (f.epr.Some? ==> Addressed(f.epr.value)) && Addressed(AsEpr(f.selectors)) {
      forall g | FilterCopyOf(f, g) ensures g == f { FilterCopySame(f, g); }
    } else {
      var g := FilterOtherCopy(f);
    }
  }

  /** An association filter whose copy has lost its role. */
  lemma {:induction false} RoleLost(g: Filter)
    requires FilterCopyOf(AssocFilter(Epr(Some("a"), Some("u"), []), 0, None, None, Some("r"), None, []), g)
    ensures g == AssocFilter(Epr(Some("a"), Some("u"), []), 0, None, None, None, None, [])
  {
    CopySame(Epr(Some("a"), Some("u"), []), g.epr.value);
  }

  /** `filter_copy`. */
  method FilterCopy(filter: FilterObj) returns (c: FilterObj)
    requires filter.Valid() && CopyableFilter(filter.Val)
    ensures c.Valid() && fresh(c.Repr) && FilterCopyOf(filter.Val, c.Val)
  {
    var epr: EprObj? := null;
    if filter.epr != null { epr := EprCopy(filter.epr); }
    var selectors, kvs, pool := CopySlots(filter.selectors[..], filter.Val.selectors, filter.Pool);
    c := new FilterObj(filter.dialect, filter.query, epr, selectors, filter.assocType, filter.assocClass,
                       filter.resultClass, None, filter.resultRole, filter.resultProp, kvs, pool);
  }
}
