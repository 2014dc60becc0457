/**
 The symbol context: the table of symbols by name, and the loop that finds a name nobody
 uses yet for a temporary symbol.
 */
module McContext {
  import opened McModel

  function Digit(d: nat): char
    requires d < 10
  {
    ['0', '1', '2', '3', '4', '5', '6', '7', '8', '9'][d]
  }

  /** An unsigned number as the output stream prints it. */
  function Decimal(n: nat): (s: string)
    ensures |s| > 0
  {
    if n < 10 then [Digit(n)] else Decimal(n / 10) + [Digit(n % 10)]
  }

  /** Different numbers print differently. */
  lemma {:induction false} DecimalInjective(a: nat, b: nat)
    requires Decimal(a) == Decimal(b)
    ensures a == b
  {
    var s := Decimal(a);
    var front, last := s[..|s| - 1], s[|s| - 1];
    assert last == Digit(a % 10) && last == Digit(b % 10);
    assert a % 10 == b % 10;
    if a < 10 {
      assert front == [];
    } else {
      assert front == Decimal(a / 10);
      assert b >= 10;
      assert front == Decimal(b / 10);
      DecimalInjective(a / 10, b / 10);
    }
  }

  predicate AllDigits(s: string) {
    forall i :: 0 <= i < |s| ==> '0' <= s[i] <= '9'
  }

  /** The number that a string of digits is. */
  function ReadDecimal(s: string): nat
    requires AllDigits(s)
  {
    if s == "" then 0 else 10 * ReadDecimal(s[..|s| - 1]) + (s[|s| - 1] as int - '0' as int)
  }

  /** A number is printed in decimal digits, and without a leading zero. */
  lemma {:induction false} DecimalReads(n: nat)
    ensures AllDigits(Decimal(n)) && ReadDecimal(Decimal(n)) == n && (n > 0 ==> Decimal(n)[0] != '0')
  {
    if n >= 10 {
      DecimalReads(n / 10);
      assert Decimal(n)[..|Decimal(n)| - 1] == Decimal(n / 10);
    } else {
      assert [Digit(n)][..0] == "";
    }
  }

  /** The name a counter value gives. */
  function Suffixed(base: string, id: nat): string {
    base + Decimal(id)
  }

  lemma SuffixedInjective(base: string, a: nat, b: nat)
    requires Suffixed(base, a) == Suffixed(base, b)
    ensures a == b
  {
    assert Decimal(a) == Suffixed(base, a)[|base|..] && Decimal(b) == Suffixed(base, b)[|base|..];
    DecimalInjective(a, b);
  }

  /** The unsigned 32-bit counter after some increments. */
  function Count(counter: nat, steps: nat): (id: nat)
    ensures id < TWO_32
  {
    (counter + steps) % TWO_32
  }

  /** The first `steps` suffixes from the counter on are taken. */
  predicate AllTaken(used: set<string>, base: string, counter: nat, steps: nat) {
    forall k :: 0 <= k < steps ==> Suffixed(base, Count(counter, k)) in used
  }

  /** Some name for `base` is free, so that the loop ends. */
  predicate HasFreeName(used: set<string>, base: string, alwaysAddSuffix: bool) {
    (!alwaysAddSuffix && base !in used) || exists id :: 0 <= id < TWO_32 && Suffixed(base, id) !in used
  }

  /** How far the counter is from a value. */
  function Distance(counter: nat, id: nat): (d: nat)
    requires counter < TWO_32 && id < TWO_32
    ensures d < TWO_32 && Count(counter, d) == id
  {
    if counter <= id then id - counter else id + TWO_32 - counter
  }

  function FirstSuffixes(base: string, n: nat): set<string> {
    set id | 0 <= id < n :: Suffixed(base, id)
  }

  lemma {:induction false} SuffixCount(base: string, n: nat)
    ensures |FirstSuffixes(base, n)| == n
  {
    if n == 0 {
      assert FirstSuffixes(base, 0) == {};
    } else {
      SuffixCount(base, n - 1);
      if Suffixed(base, n - 1) in FirstSuffixes(base, n - 1) {
        var id :| 0 <= id < n - 1 && Suffixed(base, id) == Suffixed(base, n - 1);
        SuffixedInjective(base, id, n - 1);
        assert false;
      }
      assert FirstSuffixes(base, n) == FirstSuffixes(base, n - 1) + {Suffixed(base, n - 1)};
    }
  }

  lemma SubsetSize(a: set<string>, b: set<string>)
    requires a <= b
    ensures |a| <= |b|
  {
    assert b == a + (b - a);
  }

  /** As long as fewer than 2^32 names are used there is always a free one. */
  lemma FewNamesLeaveRoom(used: set<string>, base: string, alwaysAddSuffix: bool)
    requires |used| < TWO_32
    ensures HasFreeName(used, base, alwaysAddSuffix)
  {
    SuffixCount(base, TWO_32);
    if FirstSuffixes(base, TWO_32) <= used {
      SubsetSize(FirstSuffixes(base, TWO_32), used);
      assert false;
    }
    var name :| name in FirstSuffixes(base, TWO_32) && name !in used;
    var id :| 0 <= id < TWO_32 && Suffixed(base, id) == name;
    assert Suffixed(base, id) !in used;
  }

  lemma NextCount(counter: nat, steps: nat)
    ensures (Count(counter, steps) + 1) % TWO_32 == Count(counter, steps + 1)
  {
  }

  lemma DistanceReached(used: set<string>, base: string, counter: nat, id: nat, steps: nat)
    requires counter < TWO_32 && id < TWO_32 && steps <= Distance(counter, id)
    requires Suffixed(base, id) !in used && Suffixed(base, Count(counter, steps)) in used
    ensures steps < Distance(counter, id)
  {
  }

  /** The search loop: the base itself if that may be, else base and counter, until one is free. */
  method FindName(used: set<string>, base: string, alwaysAddSuffix: bool, counter: nat)
    returns (newName: string, nextUniqueID: nat, ghost steps: nat)
    requires counter < TWO_32 && HasFreeName(used, base, alwaysAddSuffix)
    ensures newName !in used
    ensures if !alwaysAddSuffix && base !in used
            then newName == base && nextUniqueID == counter
            else
              && newName == Suffixed(base, Count(counter, steps))
              && AllTaken(used, base, counter, steps)
              && nextUniqueID == Count(counter, steps + 1)
  {
    newName, nextUniqueID, steps := base, counter, 0;
    var addSuffix := alwaysAddSuffix;
    ghost var id := 0;
    if addSuffix || base in used {
      id :| 0 <= id < TWO_32 && Suffixed(base, id) !in used;
    }
    // `steps` counts the suffixes tried without success.
    while true
      invariant nextUniqueID == Count(counter, steps)
      invariant AllTaken(used, base, counter, steps)
      invariant !addSuffix ==> !alwaysAddSuffix && steps == 0 && newName == base
      invariant addSuffix ==> alwaysAddSuffix || base in used
      invariant id < TWO_32 && (addSuffix || base in used ==> Suffixed(base, id) !in used)
      invariant steps <= Distance(counter, id)
      decreases !addSuffix, Distance(counter, id) - steps
    {
      if addSuffix {
        newName := Suffixed(base, nextUniqueID);
        nextUniqueID := (nextUniqueID + 1) % TWO_32;
        NextCount(counter, steps);
      }
      if newName !in used {
        return;
      }
      if addSuffix {
        DistanceReached(used, base, counter, id, steps);
        steps := steps + 1;
      }
      addSuffix := true;
    }
  }

  /** The name asked for, if that may be, or the first free one of base and counter. */
  ghost predicate IsNameFor(used: set<string>, base: string, alwaysAddSuffix: bool, counter: nat, name: string) {
    && name !in used && base <= name
    && if !alwaysAddSuffix && base !in used then name == base
       else exists steps: nat :: AllTaken(used, base, counter, steps) && name == Suffixed(base, Count(counter, steps))
  }

  lemma FirstSuffixFree(used: set<string>, base: string, counter: nat, name: string)
    requires IsNameFor(used, base, false, counter, name) && base in used
    requires Suffixed(base, Count(counter, 0)) !in used
    ensures name == Suffixed(base, Count(counter, 0))
  {
    var steps: nat :| AllTaken(used, base, counter, steps) && name == Suffixed(base, Count(counter, steps));
    if steps > 0 {
      assert false;
    }
  }

  class MCSymbol {
    const name: Option<string>
    const isTemporary: bool

    constructor (name: Option<string>, isTemporary: bool)
      ensures this.name == name && this.isTemporary == isTemporary
    {
      this.name, this.isTemporary := name, isTemporary;
    }
  }

  class MCContext {
    const privatePrefix: string
    const useNamesOnTempLabels: bool
    var allowTemporaryLabels: bool
    var symbols: map<string, MCSymbol>
    var usedNames: set<string>
    var nextID: map<string, nat>
    ghost var made: set<MCSymbol>

    /** Different symbols have different names, and every name given out is marked as used. */
    ghost predicate Valid()
      reads this`symbols, this`usedNames, this`nextID, this`made
    {
      && (forall s <- made :: s.name.Some? ==> s.name.value in usedNames)
      && (forall s <- made, t <- made :: s.name.Some? && s.name == t.name ==> s == t)
      && symbols.Values <= made
      && (forall m <- symbols, n <- symbols :: symbols[m] == symbols[n] ==> m == n)
      && (forall n <- nextID :: nextID[n] < TWO_32)
    }

    constructor (privatePrefix: string, useNamesOnTempLabels: bool)
      ensures Valid() && made == {} && symbols == map[] && usedNames == {}
      ensures this.privatePrefix == privatePrefix && this.useNamesOnTempLabels == useNamesOnTempLabels
      ensures allowTemporaryLabels && nextID == map[]
    {
      this.privatePrefix, this.useNamesOnTempLabels := privatePrefix, useNamesOnTempLabels;
      allowTemporaryLabels, symbols, usedNames, nextID, made := true, map[], {}, map[], {};
    }

    function Counter(base: string): nat
      reads this`nextID
    {
      if base in nextID then nextID[base] else 0
    }

    /** Claims the first free name: the base itself if that may be, else base and counter. */
    method ClaimName(base: string, alwaysAddSuffix: bool) returns (newName: string, ghost steps: nat)
      requires Valid() && HasFreeName(usedNames, base, alwaysAddSuffix)
      modifies this`usedNames, this`nextID
      ensures newName !in old(usedNames) && usedNames == old(usedNames) + {newName}
      ensures if !alwaysAddSuffix && base !in old(usedNames)
              then newName == base && Counter(base) == old(Counter(base))
              else
                && newName == Suffixed(base, Count(old(Counter(base)), steps))
                && AllTaken(old(usedNames), base, old(Counter(base)), steps)
                && Counter(base) == Count(old(Counter(base)), steps + 1)
      ensures forall n :: n != base ==> Counter(n) == old(Counter(n))
      ensures forall n <- nextID :: nextID[n] < TWO_32
    {
      var nextUniqueID;
      newName, nextUniqueID, steps := FindName(usedNames, base, alwaysAddSuffix, Counter(base));
      usedNames := usedNames + {newName};
      nextID := nextID[base := nextUniqueID];
    }

    /** Makes a new symbol; `canBeUnnamed` asks for one nobody will look at by name. */
    method CreateSymbol(name: string, alwaysAddSuffix: bool, canBeUnnamed: bool) returns (sym: MCSymbol)
      requires Valid() && (useNamesOnTempLabels || !canBeUnnamed ==> HasFreeName(usedNames, name, alwaysAddSuffix))
      modifies this`usedNames, this`nextID, this`made
      ensures Valid() && fresh(sym) && made == old(made) + {sym}
      ensures canBeUnnamed && !useNamesOnTempLabels ==>
        sym.name == None && sym.isTemporary && usedNames == old(usedNames)
      ensures useNamesOnTempLabels || !canBeUnnamed ==>
        && sym.name.Some? && sym.name.value !in old(usedNames) && usedNames == old(usedNames) + {sym.name.value}
        && sym.isTemporary == (canBeUnnamed || (allowTemporaryLabels && privatePrefix <= name))
        && IsNameFor(old(usedNames), name, alwaysAddSuffix, old(Counter(name)), sym.name.value)
        && (sym.name.value == name <==> !alwaysAddSuffix && name !in old(usedNames))
      ensures !alwaysAddSuffix && name !in old(usedNames) ==> Counter(name) == old(Counter(name))
      ensures forall n :: n != name ==> Counter(n) == old(Counter(n))
    {
      if canBeUnnamed && !useNamesOnTempLabels {
        sym := new MCSymbol(None, true);
      } else {
        var isTemporary := canBeUnnamed;
        if allowTemporaryLabels && !isTemporary {
          isTemporary := privatePrefix <= name;
        }
        var newName, steps := ClaimName(name, alwaysAddSuffix);
        sym := new MCSymbol(Some(newName), isTemporary);
      }
      made := made + {sym};
    }

    /** The symbol of a name, made when the name is looked up first. */
    method GetOrCreateSymbol(name: string) returns (sym: MCSymbol)
      requires Valid() && name != "" && (name !in symbols ==> HasFreeName(usedNames, name, false))
      modifies this`usedNames, this`nextID, this`made, this`symbols
      ensures Valid() && made == old(made) + {sym}
      ensures symbols == old(symbols)[name := sym]
      ensures name in old(symbols) ==> sym == old(symbols)[name] && usedNames == old(usedNames)
      ensures name !in old(symbols) ==>
        && fresh(sym) && (sym.name == Some(name) <==> name !in old(usedNames))
        && sym.name.Some? && IsNameFor(old(usedNames), name, false, old(Counter(name)), sym.name.value)
      ensures |usedNames| <= |old(usedNames)| + 1
    {
      if name in symbols {
        return symbols[name];
      }
      sym := CreateSymbol(name, false, false);
      symbols := symbols[name := sym];
    }

    /** A temporary symbol: its name starts with the private prefix. */
    method CreateTempSymbol(name: string, alwaysAddSuffix: bool, canBeUnnamed: bool) returns (sym: MCSymbol)
      requires Valid()
      requires useNamesOnTempLabels || !canBeUnnamed ==> HasFreeName(usedNames, privatePrefix + name, alwaysAddSuffix)
      modifies this`usedNames, this`nextID, this`made
      ensures Valid() && fresh(sym) && made == old(made) + {sym}
      ensures sym.isTemporary <==> canBeUnnamed || allowTemporaryLabels
      ensures sym.name.Some? <==> useNamesOnTempLabels || !canBeUnnamed
      ensures sym.name.Some? ==>
        && IsNameFor(old(usedNames), privatePrefix + name, alwaysAddSuffix, old(Counter(privatePrefix + name)),
                     sym.name.value)
        && usedNames == old(usedNames) + {sym.name.value}
      ensures !alwaysAddSuffix && privatePrefix + name !in old(usedNames) ==>
        Counter(privatePrefix + name) == old(Counter(privatePrefix + name))
      ensures symbols == old(symbols) && |usedNames| <= |old(usedNames)| + 1
    {
      sym := CreateSymbol(privatePrefix + name, alwaysAddSuffix, canBeUnnamed);
    }

    /** Any run of lookups and temporary creations. */
    method Run(steps: seq<Step>) returns (results: seq<MCSymbol>)
      requires Valid() && |usedNames| + |steps| <= TWO_32
      requires forall s <- steps :: s.Lookup? ==> s.name != ""
      modifies this`usedNames, this`nextID, this`made, this`symbols
      ensures Valid() && |results| == |steps|
      ensures forall i, j :: 0 <= i < j < |steps| ==> Agree(steps[i], results[i], steps[j], results[j])
    {
      results := [];
      var i := 0;
      while i < |steps|
        invariant 0 <= i <= |steps| && |results| == i && Valid()
        invariant |usedNames| <= |old(usedNames)| + i
        invariant forall k :: 0 <= k < i ==> results[k] in made
        invariant forall k :: 0 <= k < i && steps[k].Lookup? ==>
          steps[k].name in symbols && symbols[steps[k].name] == results[k]
        invariant forall k :: 0 <= k < i && steps[k].Temp? ==> results[k] !in symbols.Values
        invariant forall k, l :: 0 <= k < l < i ==> Agree(steps[k], results[k], steps[l], results[l])
      {
        var sym := Execute(steps[i]);
        results := results + [sym];
        i := i + 1;
      }
    }

    method Execute(step: Step) returns (sym: MCSymbol)
      requires Valid() && |usedNames| < TWO_32 && (step.Lookup? ==> step.name != "")
      modifies this`usedNames, this`nextID, this`made, this`symbols
      ensures Valid() && made == old(made) + {sym} && |usedNames| <= |old(usedNames)| + 1
      ensures step.Lookup? ==>
        symbols == old(symbols)[step.name := sym] && if step.name in old(symbols) then sym == old(symbols)[step.name]
            else fresh(sym)
      ensures step.Temp? ==> fresh(sym) && symbols == old(symbols)
    {
      match step
      case Lookup(name) =>
        FewNamesLeaveRoom(usedNames, name, false);
        sym := GetOrCreateSymbol(name);
      case Temp(name, alwaysAddSuffix, canBeUnnamed) =>
        FewNamesLeaveRoom(usedNames, privatePrefix + name, alwaysAddSuffix);
        sym := CreateTempSymbol(name, alwaysAddSuffix, canBeUnnamed);
    }
  }

  datatype Step =
    | Lookup(name: string)
    | Temp(name: string, alwaysAddSuffix: bool, canBeUnnamed: bool)

  /** Two steps give the same symbol if both look up the same name, and else two of different names. */
  predicate Agree(a: Step, x: MCSymbol, b: Step, y: MCSymbol) {
    && (x == y <==> a.Lookup? && b.Lookup? && a.name == b.name)
    && (x != y && x.name.Some? ==> x.name != y.name)
  }

  /** A temporary symbol takes the name ".L0", and the look-up of ".L0" then gives another one. */
  method LookupOfTakenName() returns (temp: MCSymbol, sym: MCSymbol)
    ensures temp.name == Some(".L0") && sym.name == Some(".L00")
  {
    var context := new MCContext(".L", true);
    FewNamesLeaveRoom({}, ".L0", false);
    assert ".L" + "0" == ".L0";
    temp := context.CreateTempSymbol("0", false, false);
    FewNamesLeaveRoom({".L0"}, ".L0", false);
    assert context.usedNames == {".L0"} && context.Counter(".L0") == 0;
    assert Suffixed(".L0", Count(0, 0)) == ".L00";
    assert ".L00"[3] == '0' && ".L00" != ".L0";
    sym := context.GetOrCreateSymbol(".L0");
    FirstSuffixFree({".L0"}, ".L0", 0, sym.name.value);
  }
}
