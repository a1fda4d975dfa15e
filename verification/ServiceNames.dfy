/** The name given to a service that adopts an existing guest. */
module ServiceNames {
  import opened PyText
  import opened FreshNames

  function AdoptNumbering(base: string): (n: Numbering)
    ensures Injective(n)
  {
    var n := Numbering(base, base + "-", 1, "");
    InjectiveWhenFirstIsShorter(n);
    n
  }

  function AdoptBase(name: Option<string>, vmid: nat): (base: string)
    ensures base != ""
    ensures name.Some? && Strip(name.value) != "" ==> base == Strip(name.value)
    ensures name.None? || Strip(name.value) == "" ==> base == "vm-" + Decimal(vmid)
  {
    var stripped := Strip(if name.None? then "" else name.value);
    if stripped == "" then "vm-" + Decimal(vmid) else stripped
  }

  /** The names tried, in order. */
  function Tried(base: string, k: nat): string {
    if k == 0 then base else base + "-" + Decimal(k + 1)
  }

  lemma NamesTried(base: string, k: nat)
    ensures Name(AdoptNumbering(base), k) == Tried(base, k)
  {
    assert base + "-" + Decimal(k + 1) + "" == base + "-" + Decimal(k + 1);
  }

  /** The first of `base`, `base-2`, `base-3`, ... that no service has; the search ends within |taken| rounds. */
  method UniqueAdoptServiceName(name: Option<string>, vmid: nat, taken: set<string>) returns (r: string)
    ensures r !in taken
    ensures exists k: nat :: k <= |taken| && r == Tried(AdoptBase(name, vmid), k) &&
                             forall j: nat :: j < k ==> Tried(AdoptBase(name, vmid), j) in taken
  {
    var found, k := Search(AdoptNumbering(AdoptBase(name, vmid)), taken);
    r := found;
    NamesTried(AdoptBase(name, vmid), k);
    forall j: nat | j < k ensures Tried(AdoptBase(name, vmid), j) in taken {
      NamesTried(AdoptBase(name, vmid), j);
    }
  }
}
