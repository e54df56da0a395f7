/** Named memory states polled from the emulator (src/game_state.py).

    A `GameState` descriptor names one address or a list of addresses and a
    byte size; `GameStateManager` keeps the descriptors by name and a table
    of the values last read.  The YAML file itself is not read here: a
    configuration is the list of its already-parsed entries, and what the
    model keeps of `load_config` is the "BEG-END" hex-range expansion and the
    registration of each entry. */
module GameState {
  import opened Wrappers
  import Emulator

  datatype Address = Single(address: int) | Multiple(addresses: seq<int>)

  /** A descriptor; `size` defaults to 1 and `kind` (the source's `type`) to "hex". */
  datatype GameState = GameState(name: string, description: string, addr: Address, size: int, kind: string)

  /** A polled value: one integer for a single address, one per address, in order, for a list. */
  datatype Value = Scalar(n: nat) | Sequence(ns: seq<nat>)

  /** What `update` stores for a descriptor: `read_memory(addr, size)` with the
      default "hex" type for each address.  The descriptor's own `kind` is not
      passed on, so a "dec" descriptor is decoded little-endian as well. */
  function StateValue(st: GameState, mem: Emulator.Memory): (v: Value)
    ensures st.addr.Single? <==> v.Scalar?
    ensures st.addr.Multiple? ==> |v.ns| == |st.addr.addresses|
  {
    var count := if st.size < 0 then 0 else st.size;
    match st.addr
    case Single(a) => Scalar(Emulator.LittleEndian(mem, a, count))
    case Multiple(addrs) => Sequence(seq(|addrs|, i requires 0 <= i < |addrs| => Emulator.LittleEndian(mem, addrs[i], count)))
  }

  /** The value table after an update: every registered name rewritten, every other entry kept. */
  function Refreshed(values: map<string, Value>, states: map<string, GameState>, mem: Emulator.Memory): map<string, Value> {
    values + map n | n in states :: StateValue(states[n], mem)
  }

  /** The value table after rewriting the entries of `names`, one after the other. */
  function RefreshedInOrder(values: map<string, Value>, states: map<string, GameState>, names: seq<string>, mem: Emulator.Memory): map<string, Value>
    requires forall n :: n in names ==> n in states
  {
    if names == [] then values
    else
      var last := names[|names| - 1];
      RefreshedInOrder(values, states, names[..|names| - 1], mem)[last := StateValue(states[last], mem)]
  }

  /** Rewriting the names one at a time, in any order that lists every registered name, gives `Refreshed`. */
  lemma {:induction false} RefreshedInOrderAll(values: map<string, Value>, states: map<string, GameState>, names: seq<string>, mem: Emulator.Memory)
    requires forall n :: n in names <==> n in states
    ensures RefreshedInOrder(values, states, names, mem) == Refreshed(values, states, mem)
  {
    RefreshedInOrderAt(values, states, names, mem);
  }

  lemma {:induction false} RefreshedInOrderAt(values: map<string, Value>, states: map<string, GameState>, names: seq<string>, mem: Emulator.Memory)
    requires forall n :: n in names ==> n in states
    ensures forall n :: n in RefreshedInOrder(values, states, names, mem) <==> n in values || n in names
    ensures forall n :: n in names ==> RefreshedInOrder(values, states, names, mem)[n] == StateValue(states[n], mem)
    ensures forall n :: n in values && n !in names ==> RefreshedInOrder(values, states, names, mem)[n] == values[n]
  {
    if names != [] {
      var init := names[..|names| - 1];
      assert forall n :: n in names <==> n in init || n == names[|names| - 1];
      RefreshedInOrderAt(values, states, init, mem);
    }
  }

  /** `get(name)`: a missing name raises `KeyError`. */
  function Lookup(values: map<string, Value>, name: string): (r: Result<Value>)
    ensures r.Success? <==> name in values
    ensures r.Success? ==> r.value == values[name]
    ensures r.Failure? ==> r.error == KeyError(name)
  {
    if name in values then Success(values[name]) else Failure(KeyError(name))
  }

  /** After an update every registered name can be read and holds what its
      descriptor reads from memory; any other name reads as before, so a name
      that is neither registered nor read earlier still fails. Updating twice
      over the same memory gives the same table. */
  lemma RefreshedLookup(values: map<string, Value>, states: map<string, GameState>, mem: Emulator.Memory, name: string)
    ensures name in states ==> Lookup(Refreshed(values, states, mem), name) == Success(StateValue(states[name], mem))
    ensures name !in states ==> Lookup(Refreshed(values, states, mem), name) == Lookup(values, name)
    ensures Refreshed(Refreshed(values, states, mem), states, mem) == Refreshed(values, states, mem)
  {
  }

  /** The value `update` reads for one descriptor: `read_memory(addr, size)`,
      or the list of `read_memory(a, size)` for each address `a` in order. */
  method ReadState(st: GameState, mem: Emulator.Memory) returns (v: Value)
    ensures v == StateValue(st, mem)
  {
    match st.addr {
      case Single(a) =>
        var r := Emulator.ReadMemory(mem, a, st.size);
        v := Scalar(r.value);
      case Multiple(addrs) =>
        var values: seq<nat> := [];
        for k := 0 to |addrs|
          invariant |values| == k
          invariant forall j :: 0 <= j < k ==> values[j] == StateValue(st, mem).ns[j]
        {
          var r := Emulator.ReadMemory(mem, addrs[k], st.size);
          values := values + [r.value];
        }
        assert values == StateValue(st, mem).ns;
        v := Sequence(values);
    }
  }

  /** The loop of `update`: each descriptor in `order` overwrites the entry
      under its own name with a fresh read. */
  method RefreshValues(values: map<string, Value>, states: map<string, GameState>, order: seq<string>, mem: Emulator.Memory)
      returns (r: map<string, Value>)
    requires forall n :: n in order ==> n in states && states[n].name == n
    ensures r == RefreshedInOrder(values, states, order, mem)
  {
    r := values;
    for i := 0 to |order|
      invariant r == RefreshedInOrder(values, states, order[..i], mem)
    {
      var st := states[order[i]];
      var value := ReadState(st, mem);
      r := r[st.name := value];
      assert order[..i + 1][..i] == order[..i];
    }
    assert order[..|order|] == order;
  }

  class GameStateManager {
    /** The keys of `states` in insertion order, the order `states.values()` visits them. */
    var order: seq<string>
    var states: map<string, GameState>
    var stateValues: map<string, Value>
    /** Unset in the source until the first `update`; modelled as false until then. */
    var valueValid: bool

    ghost predicate Valid()
      reads this
    {
      && (forall i, j :: 0 <= i < j < |order| ==> order[i] != order[j])
      && (forall n :: n in states <==> n in order)
      && (forall n :: n in states ==> states[n].name == n)
    }

    constructor ()
      ensures Valid()
      ensures order == [] && states == map[] && stateValues == map[] && !valueValid
    {
      order, states, stateValues, valueValid := [], map[], map[], false;
    }

    /** `get(name)` */
    function Get(name: string): (r: Result<Value>)
      reads this
      ensures r.Success? <==> name in stateValues
      ensures r.Success? ==> r.value == stateValues[name]
      ensures r.Failure? ==> r.error == KeyError(name)
    {
      Lookup(stateValues, name)
    }

    /** `add_state`: insert or replace the descriptor under `name`; other entries and the value table are untouched. */
    method AddState(name: string, description: string, addr: Address, size: int := 1, kind: string := "hex")
      requires Valid()
      modifies this
      ensures Valid()
      ensures states == old(states)[name := GameState(name, description, addr, size, kind)]
      ensures order == if name in old(states) then old(order) else old(order) + [name]
      ensures stateValues == old(stateValues) && valueValid == old(valueValid)
    {
      if name !in states {
        order := order + [name];
      }
      states := states[name := GameState(name, description, addr, size, kind)];
    }

    /** `update`: for each descriptor in insertion order, overwrite its value with a fresh read. */
    method Update(mem: Emulator.Memory)
      requires Valid()
      modifies this
      ensures Valid() && order == old(order) && states == old(states)
      ensures stateValues == Refreshed(old(stateValues), states, mem)
      ensures forall n :: n in states ==> Get(n) == Success(StateValue(states[n], mem))
      ensures valueValid
    {
      var values := RefreshValues(stateValues, states, order, mem);
      RefreshedInOrderAll(stateValues, states, order, mem);
      stateValues, valueValid := values, true;
    }

    /** The loop of `load_config` over already-parsed entries: expand each
        string address, then register the entry.  A malformed range stops the
        load with the entries before it registered. */
    method LoadConfig(entries: seq<ConfigEntry>) returns (o: Outcome)
      requires Valid()
      modifies this
      ensures Valid() && stateValues == old(stateValues) && valueValid == old(valueValid)
      ensures o.Pass? <==> forall e :: e in entries ==> Descriptor(e).Success?
      ensures o.Pass? ==> states == Registered(old(states), entries)
      ensures o.Fail? ==>
        var k := FirstBadEntry(entries);
        k < |entries| && o == Fail(Descriptor(entries[k]).error) && states == Registered(old(states), entries[..k])
    {
      for i := 0 to |entries|
        invariant Valid() && stateValues == old(stateValues) && valueValid == old(valueValid)
        invariant forall j :: 0 <= j < i ==> Descriptor(entries[j]).Success?
        invariant states == Registered(old(states), entries[..i])
      {
        var d := Descriptor(entries[i]);
        if d.Failure? {
          FirstBadEntryAt(entries, i);
          assert entries[i] in entries;
          return Fail(d.error);
        }
        var st := d.value;
        AddState(st.name, st.description, st.addr, st.size, st.kind);
        RegisteredNext(old(states), entries, i);
      }
      assert entries[..|entries|] == entries;
      assert forall e :: e in entries ==> Descriptor(e).Success? by {
        forall e | e in entries ensures Descriptor(e).Success? {
          var j :| 0 <= j < |entries| && entries[j] == e;
        }
      }
      o := Pass;
    }
  }

  /** The address field of one configuration entry, as YAML gives it. */
  datatype ConfigAddress = Number(address: int) | Numbers(addresses: seq<int>) | Text(range: string)

  /** One entry of the `states` list; omitted `size` and `type` take the `add_state` defaults. */
  datatype ConfigEntry = ConfigEntry(name: string, description: string, addr: ConfigAddress, size: Option<int>, kind: Option<string>)

  /** The descriptor `load_config` registers for an entry. */
  function Descriptor(e: ConfigEntry): Result<GameState> {
    var addr :- match e.addr
      case Number(a) => Success(Single(a))
      case Numbers(addrs) => Success(Multiple(addrs))
      case Text(s) => var addrs :- ExpandRange(s); Success(Multiple(addrs));
    Success(GameState(e.name, e.description, addr, e.size.GetOr(1), e.kind.GetOr("hex")))
  }

  /** The position of the first entry whose address cannot be expanded, or the number of entries. */
  function FirstBadEntry(entries: seq<ConfigEntry>): (k: nat)
    ensures k <= |entries|
    ensures forall j :: 0 <= j < k ==> Descriptor(entries[j]).Success?
    ensures k < |entries| ==> Descriptor(entries[k]).Failure?
  {
    if entries == [] then 0
    else if Descriptor(entries[0]).Failure? then 0
    else 1 + FirstBadEntry(entries[1..])
  }

  lemma FirstBadEntryAt(entries: seq<ConfigEntry>, i: nat)
    requires i < |entries| && Descriptor(entries[i]).Failure?
    requires forall j :: 0 <= j < i ==> Descriptor(entries[j]).Success?
    ensures FirstBadEntry(entries) == i
  {
  }

  /** The descriptor table after registering `entries` in order: a later entry replaces an earlier one of the same name. */
  function Registered(states: map<string, GameState>, entries: seq<ConfigEntry>): map<string, GameState>
    decreases |entries|
  {
    if entries == [] then states
    else
      var last := entries[|entries| - 1];
      var before := Registered(states, entries[..|entries| - 1]);
      match Descriptor(last)
      case Success(st) => before[st.name := st]
      case Failure(_) => before
  }

  lemma RegisteredNext(states: map<string, GameState>, entries: seq<ConfigEntry>, i: nat)
    requires i < |entries| && Descriptor(entries[i]).Success?
    ensures Registered(states, entries[..i + 1]) == Registered(states, entries[..i])[entries[i].name := Descriptor(entries[i]).value]
  {
    assert entries[..i + 1][..i] == entries[..i];
  }

  /** `list(range(beg, end + 1))` for a "BEG-END" string: both ends parsed as
      hex; anything but exactly two parts, or a part that is not hex, raises
      `ValueError`. */
  function ExpandRange(s: string): (r: Result<seq<int>>)
    ensures r.Success? <==>
      |Split(s, '-')| == 2 && ParseHex(Split(s, '-')[0]).Success? && ParseHex(Split(s, '-')[1]).Success?
    ensures r.Success? ==>
      r.value == InclusiveRange(ParseHex(Split(s, '-')[0]).value, ParseHex(Split(s, '-')[1]).value)
    ensures r.Success? ==> forall i :: 0 < i < |r.value| ==> r.value[i] == r.value[i - 1] + 1
  {
    var parts := Split(s, '-');
    if |parts| != 2 then Failure(ValueError("expected BEG-END"))
    else
      var beg :- ParseHex(parts[0]);
      var end :- ParseHex(parts[1]);
      Success(InclusiveRange(beg, end))
  }

  /** `list(range(beg, end + 1))` */
  function InclusiveRange(beg: int, end: int): (r: seq<int>)
    ensures |r| == if end < beg then 0 else end - beg + 1
    ensures forall i :: 0 <= i < |r| ==> r[i] == beg + i
  {
    seq(if end < beg then 0 else end - beg + 1, i => beg + i)
  }

  /** `s.split(sep)` */
  function Split(s: string, sep: char): (parts: seq<string>)
    ensures |parts| >= 1
    ensures forall i :: 0 <= i < |parts| ==> sep !in parts[i]
    ensures Join(parts, sep) == s
  {
    if s == [] then [""]
    else if s[0] == sep then [""] + Split(s[1..], sep)
    else
      var rest := Split(s[1..], sep);
      [[s[0]] + rest[0]] + rest[1..]
  }

  /** `sep.join(parts)` */
  function Join(parts: seq<string>, sep: char): string
    requires |parts| >= 1
  {
    if |parts| == 1 then parts[0] else parts[0] + [sep] + Join(parts[1..], sep)
  }

  /** Splitting at the only separator gives the two sides. */
  lemma {:induction false} SplitAtSeparator(a: string, b: string, sep: char)
    requires sep !in a && sep !in b
    ensures Split(a + [sep] + b, sep) == [a, b]
  {
    if a == [] {
      assert a + [sep] + b == [sep] + b;
      SplitWithout(b, sep);
    } else {
      SplitAtSeparator(a[1..], b, sep);
      assert (a + [sep] + b)[1..] == a[1..] + [sep] + b;
      assert [a[0]] + a[1..] == a;
    }
  }

  lemma {:induction false} SplitWithout(s: string, sep: char)
    requires sep !in s
    ensures Split(s, sep) == [s]
  {
    if s != [] {
      SplitWithout(s[1..], sep);
      assert [s[0]] + s[1..] == s;
    }
  }

  predicate IsHexDigit(c: char) {
    '0' <= c <= '9' || 'a' <= c <= 'f' || 'A' <= c <= 'F'
  }

  function HexDigitValue(c: char): (v: nat)
    requires IsHexDigit(c)
    ensures v < 16
  {
    if '0' <= c <= '9' then c as int - '0' as int
    else if 'a' <= c <= 'f' then c as int - 'a' as int + 10
    else c as int - 'A' as int + 10
  }

  /** The value of a string of hex digits, most significant first. */
  function HexValue(s: string): nat
    requires forall i :: 0 <= i < |s| ==> IsHexDigit(s[i])
  {
    if s == [] then 0 else 16 * HexValue(s[..|s| - 1]) + HexDigitValue(s[|s| - 1])
  }

  /** `int(s, 16)`: an optional "0x" prefix, then at least one hex digit. */
  function ParseHex(s: string): (r: Result<nat>)
    ensures r.Success? <==>
      var digits := if |s| >= 2 && s[0] == '0' && (s[1] == 'x' || s[1] == 'X') then s[2..] else s;
      digits != [] && forall i :: 0 <= i < |digits| ==> IsHexDigit(digits[i])
  {
    var digits := if |s| >= 2 && s[0] == '0' && (s[1] == 'x' || s[1] == 'X') then s[2..] else s;
    if digits != [] && forall i :: 0 <= i < |digits| ==> IsHexDigit(digits[i]) then Success(HexValue(digits))
    else Failure(ValueError("invalid literal for int() with base 16"))
  }

  function HexChar(d: nat): (c: char)
    requires d < 16
    ensures IsHexDigit(c) && HexDigitValue(c) == d && c != '-' && c != 'x' && c != 'X'
  {
    if d < 10 then ('0' as int + d) as char else ('A' as int + d - 10) as char
  }

  /** `format(n, 'X')`: upper-case hex digits without a prefix. */
  function ToHex(n: nat): (s: string)
    ensures s != [] && forall i :: 0 <= i < |s| ==> IsHexDigit(s[i]) && s[i] != '-'
    ensures HexValue(s) == n
  {
    if n < 16 then [HexChar(n)]
    else
      var s := ToHex(n / 16) + [HexChar(n % 16)];
      assert s[..|s| - 1] == ToHex(n / 16);
      s
  }

  /** Parsing the hex digits of n gives back n. */
  lemma ParseHexOfToHex(n: nat)
    ensures ParseHex(ToHex(n)) == Success(n)
  {
    var s := ToHex(n);
    assert !(|s| >= 2 && s[0] == '0' && (s[1] == 'x' || s[1] == 'X')) by {
      if |s| >= 2 && s[0] == '0' {
        assert IsHexDigit(s[1]);
        assert s[1] != 'x' && s[1] != 'X';
      }
    }
  }

  /** A range written "BEG-END" in hex expands to the addresses BEG..END inclusive. */
  lemma ExpandRangeOfHex(beg: nat, end: nat)
    ensures ExpandRange(ToHex(beg) + "-" + ToHex(end)) == Success(InclusiveRange(beg, end))
  {
    var b, e := ToHex(beg), ToHex(end);
    SplitAtSeparator(b, e, '-');
    assert b + "-" + e == b + ['-'] + e;
    ParseHexOfToHex(beg);
    ParseHexOfToHex(end);
  }
}
