/**
 Item trees as bytes (server/src/iomapserialize.cpp, server/src/item.cpp, server/src/item.h):
 what saveItem writes, what loadItem makes of it, and the streams both work on.
 */
module ItemBytes {
  import opened Basics

  // ----- PropStream and PropWriteStream, as functions of the bytes left -----

  function Pow256(k: nat): (r: nat)
    ensures r >= 1
  {
    if k == 0 then 1 else 256 * Pow256(k - 1)
  }

  /** The `k` lowest bytes of a two's complement number, lowest first. */
  function Le(v: int, k: nat): (r: seq<Byte>)
    ensures |r| == k
    decreases k
  {
    if k == 0 then [] else [v % 256] + Le(v / 256, k - 1)
  }

  function FromLe(s: seq<Byte>): (n: nat)
    ensures n < Pow256(|s|)
  {
    if s == [] then 0 else s[0] + 256 * FromLe(s[1..])
  }

  function AsSigned(n: int, k: nat): int
  {
    if 2 * n >= Pow256(k) then n - Pow256(k) else n
  }

  lemma {:induction false} LeIsModulo(v: int, k: nat)
    ensures FromLe(Le(v, k)) == v % Pow256(k)
    decreases k
  {
    if k > 0 {
      LeIsModulo(v / 256, k - 1);
      assert Le(v, k)[1..] == Le(v / 256, k - 1);
      ModSplit(v, Pow256(k - 1));
    }
  }

  lemma ModSplit(v: int, m: nat)
    requires m >= 1
    ensures v % 256 + 256 * ((v / 256) % m) == v % (256 * m)
  {
    var q := v / 256 / m;
    var r := v % 256 + 256 * ((v / 256) % m);
    assert v / 256 == m * q + (v / 256) % m;
    assert v == 256 * (m * q) + r;
    assert 256 * (m * q) == (256 * m) * q by {
      MulAssoc(256, m, q);
    }
    DivUnique(v, 256 * m, q, r);
  }

  lemma MulAssoc(a: int, b: int, c: int)
    ensures a * (b * c) == (a * b) * c
  {
  }

  lemma MulAtLeast(m: int, d: int)
    requires m >= 1 && d >= 1
    ensures m * d >= m
  {
  }

  lemma {:induction false} DivUnique(v: int, m: nat, q: int, r: int)
    requires m >= 1 && v == m * q + r && 0 <= r < m
    ensures v % m == r
  {
    var q', r' := v / m, v % m;
    assert v == m * q' + r' && 0 <= r' < m;
    assert m * (q - q') == m * q - m * q' == r' - r;
    assert m * (q' - q) == m * q' - m * q;
    if q > q' {
      MulAtLeast(m, q - q');
    } else if q < q' {
      MulAtLeast(m, q' - q);
    }
  }

  function ReadInt(s: seq<Byte>, k: nat, signed: bool): (r: Option<(int, seq<Byte>)>)
    ensures r.Some? ==> |r.value.1| == |s| - k
  {
    if |s| < k then None
    else
      var n := FromLe(s[..k]);
      Some((if signed then AsSigned(n, k) else n, s[k..]))
  }

  function ReadString(s: seq<Byte>): (r: Option<(seq<Byte>, seq<Byte>)>)
    ensures r.Some? ==> |r.value.1| <= |s| - 2
  {
    match ReadInt(s, 2, false)
    case None => None
    case Some((len, rest)) => if len < 0 || |rest| < len then None else Some((rest[..len], rest[len..]))
  }

  const MAX_STRING: nat := 65535

  function WriteString(s: seq<Byte>): seq<Byte>
  {
    if |s| > MAX_STRING then Le(0, 2) else Le(|s|, 2) + s
  }

  /** What is left of a string once written: nothing, when it is too long. */
  function Clip(s: seq<Byte>): seq<Byte>
  {
    if |s| > MAX_STRING then [] else s
  }

  /** The number read back after writing `v` in `k` bytes. */
  function Trunc(v: int, k: nat, signed: bool): int
  {
    if signed then AsSigned(v % Pow256(k), k) else v % Pow256(k)
  }

  lemma ReadWritten(v: int, k: nat, signed: bool, rest: seq<Byte>)
    ensures ReadInt(Le(v, k) + rest, k, signed) == Some((Trunc(v, k, signed), rest))
  {
    LeIsModulo(v, k);
    assert (Le(v, k) + rest)[..k] == Le(v, k);
    assert (Le(v, k) + rest)[k..] == rest;
  }

  lemma ReadWrittenString(s: seq<Byte>, rest: seq<Byte>)
    ensures ReadString(WriteString(s) + rest) == Some((Clip(s), rest))
  {
    var c := Clip(s);
    assert Pow256(2) == 65536 by {
      assert Pow256(1) == 256 * Pow256(0);
    }
    assert WriteString(s) + rest == Le(|c|, 2) + (c + rest);
    ReadWritten(|c|, 2, false, c + rest);
    assert (c + rest)[..|c|] == c && (c + rest)[|c|..] == rest;
  }

  // ----- Items -----

  datatype Attr =
    | ActionId | Text | Date | Writer | Description | Duration | DecayState | Name | Article | PluralName
    | Weight | Attack | AttackSpeed | Defense | ExtraDefense | Armor | HitChance | ShootRange | DecayTo
    | Charges | FluidType | WrapId | StoreItem | OpenContainer | UniqueId | Owner | CorpseOwner | DoorId

  datatype Val = Int(n: int) | Str(s: seq<Byte>)

  type Bits = s: seq<Byte> | |s| == 8 witness [0, 0, 0, 0, 0, 0, 0, 0]
  type Int64 = n: int | -0x8000_0000_0000_0000 <= n < 0x8000_0000_0000_0000

  /** The variants of a custom attribute; a double is its eight bytes. */
  datatype Custom = Blank | CString(s: seq<Byte>) | CInt(n: Int64) | CDouble(bits: Bits) | CBool(b: bool)

  datatype Entry = Entry(key: seq<Byte>, value: Custom)

  /** Reflection, as percent and chance, and boosts, by combat type. */
  datatype Extras = Extras(reflect: map<int, (int, int)>, boosts: map<int, int>)

  const NO_EXTRAS: Extras := Extras(map[], map[])

  /** `custom` lists the custom table in the order its iterator visits it. */
  datatype Item = Item(
    id: nat, count: Byte, attrs: map<Attr, Val>, custom: Option<seq<Entry>>, extras: Extras, kids: seq<Item>)

  datatype ItemType = ItemType(
    known: bool, container: bool, stackable: bool, fluidOrSplash: bool, moveable: bool, charges: nat,
    decayTo: int, decayTimeMin: nat, decayTimeMax: nat)

  type Types = nat -> ItemType

  /** The default duration a new item draws, by its type; 0 for none. */
  type Drawn = nat -> int

  /** What every item of a tree draws, by its place in the tree. */
  type Draws = seq<nat> -> Drawn

  /** What the content at place `k` and everything in it draws. */
  function Under(draws: Draws, k: nat): Draws
  {
    path => draws([k] + path)
  }

  function GetInt(it: Item, a: Attr): int
  {
    if a in it.attrs && it.attrs[a].Int? then it.attrs[a].n else 0
  }

  function GetStr(it: Item, a: Attr): seq<Byte>
  {
    if a in it.attrs && it.attrs[a].Str? then it.attrs[a].s else []
  }

  function SetInt(it: Item, a: Attr, n: int): Item
  {
    it.(attrs := it.attrs[a := Int(if a == AttackSpeed && n < 100 then 100 else n)])
  }

  function SetStr(it: Item, a: Attr, s: seq<Byte>): Item
  {
    if s == [] then it else it.(attrs := it.attrs[a := Str(s)])
  }

  function SetSubType(types: Types, it: Item, n: nat): Item
  {
    var t := types(it.id);
    if t.fluidOrSplash then SetInt(it, FluidType, n)
    else if t.stackable then it.(count := n % 256)
    else if t.charges != 0 then SetInt(it, Charges, n)
    else it.(count := n % 256)
  }

  function ChargesOf(it: Item): nat
  {
    GetInt(it, Charges) % 65536
  }

  /** Some magic rings and boots come back in their unworn form. */
  function CreatedId(id: nat): nat
  {
    if 2210 <= id <= 2212 then id - 3
    else if id == 2215 || id == 2216 then id - 2
    else if 2202 <= id <= 2206 then id - 37
    else if id == 2640 then 6132
    else if id == 6301 then 6300
    else id
  }

  /** The count, charges or fluid type of a new item. */
  function NewSubType(types: Types, id: nat, count: nat): Item
  {
    var t := types(id);
    var bare := Item(id, 1, map[], None, NO_EXTRAS, []);
    if t.fluidOrSplash then SetInt(bare, FluidType, count)
    else if t.stackable then
      if count != 0 then bare.(count := count % 256)
      else if t.charges != 0 then bare.(count := t.charges % 256)
      else bare
    else if t.charges != 0 then SetInt(bare, Charges, if count != 0 then count else t.charges % 65536)
    else bare
  }

  /** Item::Item and setDefaultDuration. */
  function NewItem(types: Types, drawn: Drawn, id: nat, count: nat): Item
  {
    var it := NewSubType(types, id, count);
    if drawn(id) != 0 then SetInt(it, Duration, drawn(id)) else it
  }

  /** Item::CreateItem(id) for plain items and containers. */
  function CreateItem(types: Types, drawn: Drawn, id: nat): Option<Item>
  {
    if !types(id).known then None
    else if types(id).container then Some(NewItem(types, drawn, id, 0))
    else Some(NewItem(types, drawn, CreatedId(id), if types(id).stackable then 1 else 0))
  }

  // ----- Item::serializeAttr -----

  datatype Form = Num(width: nat, signed: bool) | String

  /** One attribute and how it is stored under its tag. */
  datatype Row = Row(attr: Attr, form: Form)

  function RowOf(tag: Byte): Option<Row>
  {
    match tag
    case 4 => Some(Row(ActionId, Num(2, false)))
    case 5 => Some(Row(UniqueId, Num(2, false)))
    case 6 => Some(Row(Text, String))
    case 7 => Some(Row(Description, String))
    case 16 => Some(Row(Duration, Num(4, true)))
    case 17 => Some(Row(DecayState, Num(1, false)))
    case 18 => Some(Row(Date, Num(4, false)))
    case 19 => Some(Row(Writer, String))
    case 24 => Some(Row(Name, String))
    case 25 => Some(Row(Article, String))
    case 26 => Some(Row(PluralName, String))
    case 27 => Some(Row(Weight, Num(4, false)))
    case 28 => Some(Row(Attack, Num(4, true)))
    case 29 => Some(Row(Defense, Num(4, true)))
    case 30 => Some(Row(ExtraDefense, Num(4, true)))
    case 31 => Some(Row(Armor, Num(4, true)))
    case 32 => Some(Row(HitChance, Num(1, true)))
    case 33 => Some(Row(ShootRange, Num(1, false)))
    case 35 => Some(Row(DecayTo, Num(4, true)))
    case 36 => Some(Row(WrapId, Num(2, false)))
    case 37 => Some(Row(StoreItem, Num(1, false)))
    case 38 => Some(Row(AttackSpeed, Num(4, false)))
    case 39 => Some(Row(OpenContainer, Num(1, false)))
    case _ => None
  }

  /** The tags serializeAttr writes from the attribute list, in its order. */
  const TAGS: seq<Byte> := TagOrder()

  function TagOrder(): seq<Byte>
  {
    [4, 6, 18, 19, 7, 16, 17, 24, 25, 26, 27, 28, 38, 29, 30, 31, 32, 33, 35]
  }

  const DECAYING_PENDING: int := 2

  /** Whether serializeAttr writes the attribute. */
  predicate Written(types: Types, it: Item, a: Attr)
  {
    match a
    case ActionId => types(it.id).moveable && GetInt(it, ActionId) % 65536 != 0
    case Text => GetStr(it, Text) != []
    case Writer => GetStr(it, Writer) != []
    case Description => GetStr(it, Description) != []
    case Date => GetInt(it, Date) != 0
    case DecayState => GetInt(it, DecayState) % 256 == 1 || GetInt(it, DecayState) % 256 == 2
    case _ => a in it.attrs
  }

  function RowText(types: Types, it: Item, tag: Byte): seq<Byte>
  {
    match RowOf(tag)
    case None => []
    case Some(Row(a, form)) =>
      if !Written(types, it, a) then []
      else if form.String? then [tag] + WriteString(GetStr(it, a))
      else [tag] + Le(GetInt(it, a), form.width)
  }

  function RowsText(types: Types, it: Item, tags: seq<Byte>): seq<Byte>
  {
    if tags == [] then [] else RowText(types, it, tags[0]) + RowsText(types, it, tags[1..])
  }

  function SubTypeText(types: Types, it: Item): seq<Byte>
  {
    var t := types(it.id);
    (if t.fluidOrSplash then [15] + Le(GetInt(it, FluidType), 1)
     else if t.stackable then [15] + Le(it.count, 1)
     else [])
    + if ChargesOf(it) != 0 then [22] + Le(ChargesOf(it), 2) else []
  }

  function ValueText(v: Custom): seq<Byte>
  {
    match v
    case Blank => [0]
    case CString(s) => [1] + WriteString(s)
    case CInt(n) => [2] + Le(n, 8)
    case CDouble(bits) => [3] + bits
    case CBool(b) => [4] + [if b then 1 else 0]
  }

  function EntriesText(entries: seq<Entry>): seq<Byte>
  {
    if entries == [] then []
    else WriteString(entries[0].key) + ValueText(entries[0].value) + EntriesText(entries[1..])
  }

  function CustomText(it: Item): seq<Byte>
  {
    match it.custom
    case None => []
    case Some(entries) => [34] + Le(|entries|, 8) + EntriesText(entries)
  }

  function AttrsText(types: Types, it: Item): seq<Byte>
  {
    SubTypeText(types, it) + RowsText(types, it, TAGS) + CustomText(it)
  }

  // ----- Item::readAttr and unserializeAttr -----

  /** What a number read for an attribute does to the item. */
  function TakeInt(it: Item, a: Attr, n: int): Item
  {
    match a
    case ActionId => SetInt(it, a, if n < 100 then 100 else n)
    case Duration => SetInt(it, a, if n < 0 then 0 else n)
    case Date => SetInt(it, a, AsSigned(n, 4))
    case DecayState => if n != 0 then SetInt(it, a, DECAYING_PENDING) else it
    case UniqueId => if a in it.attrs then it else SetInt(it, a, n)
    case _ => SetInt(it, a, n)
  }

  function Lower(s: seq<Byte>): (r: seq<Byte>)
    ensures |r| == |s|
  {
    seq(|s|, k requires 0 <= k < |s| => if 65 <= s[k] <= 90 then s[k] + 32 else s[k])
  }

  function Without(entries: seq<Entry>, key: seq<Byte>): seq<Entry>
  {
    if entries == [] then []
    else (if entries[0].key == key then [] else [entries[0]]) + Without(entries[1..], key)
  }

  /** ItemAttributes::setCustomAttribute. */
  function SetCustom(custom: Option<seq<Entry>>, key: seq<Byte>, v: Custom): Option<seq<Entry>>
  {
    var table := if custom.Some? then Without(custom.value, Lower(key)) else [];
    Some(table + [Entry(Lower(key), v)])
  }

  /** CustomAttribute::unserialize. */
  function ReadValue(s: seq<Byte>): (r: Option<(Custom, seq<Byte>)>)
    ensures r.Some? ==> |r.value.1| < |s|
  {
    if s == [] then None
    else
      var rest := s[1..];
      match s[0]
      case 1 =>
        (match ReadString(rest) case None => None case Some((str, after)) => Some((CString(str), after)))
      case 2 =>
        (match ReadInt(rest, 8, true)
         case None => None
         case Some((n, after)) =>
           if -0x8000_0000_0000_0000 <= n < 0x8000_0000_0000_0000 then Some((CInt(n), after)) else None)
      case 3 => if |rest| < 8 then None else Some((CDouble(rest[..8]), rest[8..]))
      case 4 => if |rest| < 1 then None else Some((CBool(rest[0] != 0), rest[1..]))
      case _ => None
  }

  function ReadEntries(n: nat, s: seq<Byte>, custom: Option<seq<Entry>>): (r: Option<(Option<seq<Entry>>, seq<Byte>)>)
    ensures r.Some? ==> |r.value.1| <= |s|
    decreases n
  {
    if n == 0 then Some((custom, s))
    else
      match ReadString(s)
      case None => None
      case Some((key, rest)) =>
        match ReadValue(rest)
        case None => None
        case Some((v, after)) => ReadEntries(n - 1, after, SetCustom(custom, key, v))
  }

  function ReadReflect(n: nat, s: seq<Byte>, reflect: map<int, (int, int)>):
    (r: Option<(map<int, (int, int)>, seq<Byte>)>)
    ensures r.Some? ==> |r.value.1| <= |s|
  {
    if n == 0 then Some((reflect, s))
    else
      match ReadInt(s, 2, false)
      case None => None
      case Some((combat, rest)) =>
        match ReadInt(rest, 2, false)
        case None => None
        case Some((percent, rest')) =>
          match ReadInt(rest', 2, false)
          case None => None
          case Some((chance, after)) => ReadReflect(n - 1, after, reflect[combat := (percent, chance)])
  }

  function ReadBoosts(n: nat, s: seq<Byte>, boosts: map<int, int>): (r: Option<(map<int, int>, seq<Byte>)>)
    ensures r.Some? ==> |r.value.1| <= |s|
  {
    if n == 0 then Some((boosts, s))
    else
      match ReadInt(s, 2, false)
      case None => None
      case Some((combat, rest)) =>
        match ReadInt(rest, 2, false)
        case None => None
        case Some((percent, after)) => ReadBoosts(n - 1, after, boosts[combat := percent])
  }

  /** The attributes of other item classes, whose bytes are passed over. */
  function Skipped(tag: Byte): nat
  {
    match tag
    case 8 => 5
    case 10 => 2
    case 14 => 1
    case 20 => 4
    case 21 => 4
    case 40 => 15
    case _ => 0
  }

  /** Item::readAttr for every tag but the container's own. */
  function ReadAttr(types: Types, it: Item, tag: Byte, s: seq<Byte>): (r: Option<(Item, seq<Byte>)>)
    ensures r.Some? ==> |r.value.1| <= |s| && r.value.0.kids == it.kids && r.value.0.id == it.id
  {
    if tag == 15 || tag == 12 then
      match ReadInt(s, 1, false)
      case None => None
      case Some((n, rest)) => if n < 0 then None else Some((SetSubType(types, it, n), rest))
    else if tag == 22 then
      match ReadInt(s, 2, false)
      case None => None
      case Some((n, rest)) => if n < 0 then None else Some((SetSubType(types, it, n), rest))
    else if tag == 34 then
      match ReadInt(s, 8, false)
      case None => None
      case Some((n, rest)) =>
        if n < 0 then None
        else
          match ReadEntries(n, rest, it.custom)
          case None => None
          case Some((custom, after)) => Some((it.(custom := custom), after))
    else if tag == 42 then
      match ReadInt(s, 2, false)
      case None => None
      case Some((n, rest)) =>
        if n < 0 then None
        else
          match ReadReflect(n, rest, it.extras.reflect)
          case None => None
          case Some((reflect, after)) => Some((it.(extras := it.extras.(reflect := reflect)), after))
    else if tag == 43 then
      match ReadInt(s, 2, false)
      case None => None
      case Some((n, rest)) =>
        if n < 0 then None
        else
          match ReadBoosts(n, rest, it.extras.boosts)
          case None => None
          case Some((boosts, after)) => Some((it.(extras := it.extras.(boosts := boosts)), after))
    else if Skipped(tag) > 0 then
      if |s| < Skipped(tag) then None else Some((it, s[Skipped(tag)..]))
    else
      match RowOf(tag)
      case None => None
      case Some(Row(a, Num(width, signed))) =>
        (match ReadInt(s, width, signed) case None => None case Some((n, rest)) => Some((TakeInt(it, a, n), rest)))
      case Some(Row(a, String)) =>
        match ReadString(s) case None => None case Some((str, rest)) => Some((SetStr(it, a, str), rest))
  }

  const ATTR_CONTAINER_ITEMS: Byte := 23

  /** An item whose attributes are read, and how many contents are announced. */
  datatype Loaded = Loaded(item: Item, serializationCount: nat, rest: seq<Byte>)

  function UnserializeAttr(types: Types, box: bool, it: Item, s: seq<Byte>): (r: Option<Loaded>)
    ensures r.Some? ==> |r.value.rest| <= |s| && r.value.item.kids == it.kids && r.value.item.id == it.id
    decreases |s|
  {
    if s == [] then Some(Loaded(it, 0, s))
    else if s[0] == 0 then Some(Loaded(it, 0, s[1..]))
    else if s[0] == ATTR_CONTAINER_ITEMS then
      if !box then None
      else
        match ReadInt(s[1..], 4, false)
        case None => None
        case Some((n, rest)) => if n < 0 then None else Some(Loaded(it, n, rest))
    else
      match ReadAttr(types, it, s[0], s[1..])
      case None => None
      case Some((it', rest)) => UnserializeAttr(types, box, it', rest)
  }

  // ----- IOMapSerialize::saveItem, loadItem and loadContainer -----

  function SaveItem(types: Types, it: Item): seq<Byte>
    decreases it, 1
  {
    Le(it.id, 2) + AttrsText(types, it)
    + (if types(it.id).container then [ATTR_CONTAINER_ITEMS] + Le(|it.kids|, 4) + SaveKids(types, it, |it.kids|)
       else [])
    + [0]
  }

  /** The first `n` contents, last first. */
  function SaveKids(types: Types, it: Item, n: nat): seq<Byte>
    requires n <= |it.kids|
    decreases it, 0, n
  {
    if n == 0 then [] else SaveItem(types, it.kids[n - 1]) + SaveKids(types, it, n - 1)
  }

  /** An id that names no item is passed over, and nothing is added. */
  function LoadItem(types: Types, draws: Draws, s: seq<Byte>): (r: Option<(Option<Item>, seq<Byte>)>)
    ensures r.Some? ==> |r.value.1| < |s|
    decreases |s|, 0
  {
    match ReadInt(s, 2, false)
    case None => None
    case Some((id, rest)) =>
      if id < 0 then None
      else
        match CreateItem(types, draws([]), id)
        case None => Some((None, rest))
        case Some(it) =>
          match UnserializeAttr(types, types(id).container, it, rest)
          case None => None
          case Some(Loaded(it', n, after)) =>
            if !types(id).container then Some((Some(it'), after))
            else
              match LoadContainer(types, draws, n, after, [])
              case None => None
              case Some((kids, after')) => Some((Some(it'.(kids := kids)), after'))
  }

  /** Each content read goes to the front; then the container's end mark. */
  function LoadContainer(types: Types, draws: Draws, n: nat, s: seq<Byte>, itemlist: seq<Item>):
    (r: Option<(seq<Item>, seq<Byte>)>)
    ensures r.Some? ==> |r.value.1| <= |s|
    decreases |s|, 1
  {
    if n == 0 then
      if s == [] || s[0] != 0 then None else Some((itemlist, s[1..]))
    else
      match LoadItem(types, Under(draws, n - 1), s)
      case None => None
      case Some((it, rest)) =>
        LoadContainer(types, draws, n - 1, rest, (if it.Some? then [it.value] else []) + itemlist)
  }

  // ----- Item::startDecaying, Container::startDecaying and Game::startDecay -----

  const DECAYING_TRUE: nat := 1

  /** Item::canDecay for an item that lies somewhere; its own duration stands for the least decay time of its type. */
  predicate CanDecay(types: Types, it: Item)
  {
    && (if DecayTo in it.attrs then GetInt(it, DecayTo) else types(it.id).decayTo) >= 0
    && ((if Duration in it.attrs then HasTime(it) else types(it.id).decayTimeMin != 0)
        || types(it.id).decayTimeMax != 0)
    && UniqueId !in it.attrs
  }

  predicate HasTime(it: Item)
  {
    GetInt(it, Duration) % 0x1_0000_0000 > 0
  }

  /**
   An item put onto a tile once its decaying has started: a container passes the start on to its
   contents and does not decay itself, anything else that can decay and has time left is marked.
   */
  function Live(types: Types, it: Item): Item
    decreases it
  {
    if types(it.id).container then
      it.(kids := seq(|it.kids|, k requires 0 <= k < |it.kids| => Live(types, it.kids[k])))
    else if CanDecay(types, it) && HasTime(it) then SetInt(it, DecayState, DECAYING_TRUE)
    else it
  }

  /** Nothing in the tree decays as soon as it is put down. */
  predicate Lasting(types: Types, it: Item)
  {
    if types(it.id).container then forall k | 0 <= k < |it.kids| :: Lasting(types, it.kids[k])
    else CanDecay(types, it) ==> HasTime(it) || GetInt(it, DecayState) == DECAYING_TRUE
  }

  // ----- What comes back -----

  /** The attributes written under `tags`, as they are read back. */
  function Persisted(types: Types, it: Item, back: Item, tags: seq<Byte>): (r: Item)
    ensures r.id == back.id && r.kids == back.kids && r.count == back.count && r.custom == back.custom
    ensures r.extras == back.extras
    decreases |tags|
  {
    if tags == [] then back else Persisted(types, it, Put(types, it, back, tags[0]), tags[1..])
  }

  function Put(types: Types, it: Item, back: Item, tag: Byte): (r: Item)
    ensures r.id == back.id && r.kids == back.kids && r.count == back.count && r.custom == back.custom
    ensures r.extras == back.extras
  {
    match RowOf(tag)
    case None => back
    case Some(Row(a, form)) =>
      if !Written(types, it, a) then back
      else if form.String? then SetStr(back, a, Clip(GetStr(it, a)))
      else TakeInt(back, a, Trunc(GetInt(it, a), form.width, form.signed))
  }

  function BackSubType(types: Types, it: Item, made: Item): (r: Item)
    ensures r.id == made.id && r.kids == made.kids && r.custom == made.custom && r.extras == made.extras
  {
    var t := types(it.id);
    var counted :=
      if t.fluidOrSplash then SetSubType(types, made, GetInt(it, FluidType) % 256)
      else if t.stackable then SetSubType(types, made, it.count)
      else made;
    if ChargesOf(it) != 0 then SetSubType(types, counted, ChargesOf(it)) else counted
  }

  function ClipValue(v: Custom): Custom
  {
    if v.CString? then CString(Clip(v.s)) else v
  }

  function BackEntries(entries: seq<Entry>, custom: Option<seq<Entry>>): Option<seq<Entry>>
    decreases |entries|
  {
    if entries == [] then custom
    else BackEntries(entries[1..], SetCustom(custom, Clip(entries[0].key), ClipValue(entries[0].value)))
  }

  predicate NoBlanks(entries: seq<Entry>)
  {
    forall e <- entries :: e.value != Blank
  }

  /** No custom attribute anywhere in the tree is blank. */
  predicate Readable(it: Item)
  {
    && (it.custom.Some? ==> NoBlanks(it.custom.value))
    && forall k | 0 <= k < |it.kids| :: Readable(it.kids[k])
  }

  /** The item that loading the saved bytes gives, without its contents. */
  function BackAttrs(types: Types, it: Item, made: Item): (r: Item)
    ensures r.kids == made.kids && r.extras == made.extras
  {
    Persisted(types, it, BackSubType(types, it, made), TAGS)
    .(custom := if it.custom.Some? then BackEntries(it.custom.value, None) else None)
  }

  function Back(types: Types, draws: Draws, it: Item): Item
    decreases it
  {
    hide CreateItem, BackAttrs;
    if CreateItem(types, draws([]), it.id).None? then it
    else
      BackAttrs(types, it, CreateItem(types, draws([]), it.id).value)
      .(kids := BackKids(types, draws, it.kids))
  }

  function BackKids(types: Types, draws: Draws, kids: seq<Item>): (r: seq<Item>)
    ensures |r| == |kids|
    decreases kids
  {
    seq(|kids|, k requires 0 <= k < |kids| => Back(types, Under(draws, k), kids[k]))
  }

  /** Sizes fit their counters, every id names an item, and only containers hold anything. */
  predicate Storable(types: Types, it: Item)
  {
    && it.id < 65536 && types(it.id).known
    && (!types(it.id).container ==> it.kids == [])
    && |it.kids| < 0x1_0000_0000
    && (it.custom.Some? ==> |it.custom.value| < 0x1_0000_0000_0000_0000)
    && forall k | 0 <= k < |it.kids| :: Storable(types, it.kids[k])
  }

  // ----- The round trip -----

  lemma Powers()
    ensures Pow256(0) == 1 && Pow256(1) == 0x100 && Pow256(2) == 0x1_0000 && Pow256(4) == 0x1_0000_0000
    ensures Pow256(8) == 0x1_0000_0000_0000_0000
  {
    assert Pow256(3) == 0x100_0000;
    assert Pow256(5) == 0x100_0000_0000;
    assert Pow256(6) == 0x1_0000_0000_0000;
    assert Pow256(7) == 0x100_0000_0000_0000;
  }

  lemma Tagged(tag: Byte, text: seq<Byte>, rest: seq<Byte>)
    ensures ([tag] + text + rest)[0] == tag && ([tag] + text + rest)[1..] == text + rest
  {
  }

  lemma AttrStep(types: Types, box: bool, it: Item, tag: Byte, s: seq<Byte>)
    requires tag != 0 && tag != ATTR_CONTAINER_ITEMS
    ensures UnserializeAttr(types, box, it, [tag] + s)
         == match ReadAttr(types, it, tag, s)
            case None => None
            case Some((it', rest)) => UnserializeAttr(types, box, it', rest)
  {
    hide ReadAttr;
    assert ([tag] + s)[1..] == s;
  }

  lemma RowPayload(types: Types, it: Item, back: Item, tag: Byte, payload: seq<Byte>, rest: seq<Byte>)
    requires RowOf(tag).Some? && Written(types, it, RowOf(tag).value.attr)
    requires var row := RowOf(tag).value;
             payload == match row.form
                        case Num(width, _) => Le(GetInt(it, row.attr), width)
                        case String => WriteString(GetStr(it, row.attr))
    ensures ReadAttr(types, back, tag, payload + rest) == Some((Put(types, it, back, tag), rest))
  {
    hide Written, TakeInt, SetStr, Le, FromLe, ReadInt, ReadString, WriteString, Trunc, Clip, GetInt, GetStr;
    var row := RowOf(tag).value;
    assert tag != 15 && tag != 12 && tag != 22 && tag != 34 && Skipped(tag) == 0;
    match row.form
    case Num(width, signed) => ReadWritten(GetInt(it, row.attr), width, signed, rest);
    case String => ReadWrittenString(GetStr(it, row.attr), rest);
  }

  /** One written attribute is read as `Put` says. */
  lemma RowReads(types: Types, box: bool, it: Item, back: Item, tag: Byte, rest: seq<Byte>)
    ensures UnserializeAttr(types, box, back, RowText(types, it, tag) + rest)
         == UnserializeAttr(types, box, Put(types, it, back, tag), rest)
  {
    hide UnserializeAttr, ReadAttr, Written, TakeInt, SetStr, Le, WriteString, Trunc, Clip, GetInt, GetStr;
    var text := RowText(types, it, tag);
    if RowOf(tag).None? || !Written(types, it, RowOf(tag).value.attr) {
      assert text + rest == rest;
    } else {
      assert tag != 0 && tag != ATTR_CONTAINER_ITEMS;
      assert text == [tag] + text[1..];
      Assoc([tag], text[1..], rest);
      AttrStep(types, box, back, tag, text[1..] + rest);
      RowPayload(types, it, back, tag, text[1..], rest);
    }
  }

  lemma {:induction false} RowsRead(types: Types, box: bool, it: Item, back: Item, tags: seq<Byte>, rest: seq<Byte>)
    ensures UnserializeAttr(types, box, back, RowsText(types, it, tags) + rest)
         == UnserializeAttr(types, box, Persisted(types, it, back, tags), rest)
    decreases |tags|
  {
    hide UnserializeAttr, RowText, Put;
    if tags == [] {
      assert [] + rest == rest;
    } else {
      Assoc(RowText(types, it, tags[0]), RowsText(types, it, tags[1..]), rest);
      RowReads(types, box, it, back, tags[0], RowsText(types, it, tags[1..]) + rest);
      RowsRead(types, box, it, Put(types, it, back, tags[0]), tags[1..], rest);
    }
  }

  lemma CountPayload(types: Types, back: Item, n: int, rest: seq<Byte>)
    ensures ReadAttr(types, back, 15, Le(n, 1) + rest) == Some((SetSubType(types, back, n % 256), rest))
    ensures ReadAttr(types, back, 22, Le(n, 2) + rest) == Some((SetSubType(types, back, n % 65536), rest))
  {
    hide Le, FromLe, ReadInt, Pow256, SetSubType;
    Powers();
    ReadWritten(n, 1, false, rest);
    ReadWritten(n, 2, false, rest);
  }

  lemma SubTypeReads(types: Types, box: bool, it: Item, back: Item, rest: seq<Byte>)
    ensures UnserializeAttr(types, box, back, SubTypeText(types, it) + rest)
         == UnserializeAttr(types, box, BackSubType(types, it, back), rest)
  {
    hide UnserializeAttr, ReadAttr, Le, SetSubType;
    var t := types(it.id);
    var charged := if ChargesOf(it) != 0 then [22] + Le(ChargesOf(it), 2) else [];
    var n := if t.fluidOrSplash then GetInt(it, FluidType) else it.count;
    var counts := t.fluidOrSplash || t.stackable;
    var counted := if counts then [15] + Le(n, 1) else [];
    var after := charged + rest;
    Assoc(counted, charged, rest);
    if counts {
      Assoc([15], Le(n, 1), after);
      AttrStep(types, box, back, 15, Le(n, 1) + after);
      CountPayload(types, back, n, after);
    } else {
      assert [] + after == after;
    }
    var back' := if counts then SetSubType(types, back, n % 256) else back;
    if ChargesOf(it) != 0 {
      Assoc([22], Le(ChargesOf(it), 2), rest);
      AttrStep(types, box, back', 22, Le(ChargesOf(it), 2) + rest);
      CountPayload(types, back', ChargesOf(it), rest);
    } else {
      assert [] + rest == rest;
    }
  }

  lemma ValueReads(v: Custom, rest: seq<Byte>)
    ensures ReadValue(ValueText(v) + rest) == if v.Blank? then None else Some((ClipValue(v), rest))
  {
    hide Le, FromLe, ReadInt, ReadString, WriteString, Clip, Pow256;
    Powers();
    match v
    case Blank =>
    case CString(s) =>
      Tagged(1, WriteString(s), rest);
      ReadWrittenString(s, rest);
    case CInt(n) =>
      Tagged(2, Le(n, 8), rest);
      ReadWritten(n, 8, true, rest);
      assert Trunc(n, 8, true) == n;
    case CDouble(bits) =>
      Tagged(3, bits, rest);
      assert (bits + rest)[..8] == bits && (bits + rest)[8..] == rest;
    case CBool(b) =>
      Tagged(4, [if b then 1 else 0], rest);
      assert ([if b then 1 else 0] + rest)[1..] == rest;
  }

  lemma {:induction false} EntriesRead(entries: seq<Entry>, rest: seq<Byte>, custom: Option<seq<Entry>>)
    ensures ReadEntries(|entries|, EntriesText(entries) + rest, custom)
         == if NoBlanks(entries) then Some((BackEntries(entries, custom), rest)) else None
    decreases |entries|
  {
    hide ReadString, WriteString, ReadValue, ValueText, ClipValue, Clip, SetCustom;
    if entries == [] {
      assert [] + rest == rest;
    } else {
      var e, after := entries[0], EntriesText(entries[1..]) + rest;
      Assoc(WriteString(e.key) + ValueText(e.value), EntriesText(entries[1..]), rest);
      Assoc(WriteString(e.key), ValueText(e.value), after);
      ReadWrittenString(e.key, ValueText(e.value) + after);
      ValueReads(e.value, after);
      assert NoBlanks(entries) <==> !e.value.Blank? && NoBlanks(entries[1..]) by {
        assert entries == [e] + entries[1..];
      }
      if !e.value.Blank? {
        EntriesRead(entries[1..], rest, SetCustom(custom, Clip(e.key), ClipValue(e.value)));
      }
    }
  }

  lemma CustomReads(types: Types, box: bool, it: Item, back: Item, rest: seq<Byte>)
    requires back.custom == None && (it.custom.Some? ==> |it.custom.value| < 0x1_0000_0000_0000_0000)
    ensures UnserializeAttr(types, box, back, CustomText(it) + rest)
         == if it.custom.Some? && !NoBlanks(it.custom.value) then None
            else UnserializeAttr(types, box,
                   back.(custom := if it.custom.Some? then BackEntries(it.custom.value, None) else None), rest)
  {
    hide Le, FromLe, ReadInt, ReadEntries, EntriesText, BackEntries, Pow256, NoBlanks;
    Powers();
    match it.custom
    case None =>
      assert [] + rest == rest;
    case Some(entries) =>
      Assoc([34] + Le(|entries|, 8), EntriesText(entries), rest);
      Tagged(34, Le(|entries|, 8), EntriesText(entries) + rest);
      ReadWritten(|entries|, 8, false, EntriesText(entries) + rest);
      EntriesRead(entries, rest, None);
  }

  /** All of serializeAttr is read back, or the first blank custom attribute fails the read. */
  lemma AttrsRead(types: Types, box: bool, it: Item, made: Item, rest: seq<Byte>)
    requires made.custom == None && (it.custom.Some? ==> |it.custom.value| < 0x1_0000_0000_0000_0000)
    ensures UnserializeAttr(types, box, made, AttrsText(types, it) + rest)
         == if it.custom.Some? && !NoBlanks(it.custom.value) then None
            else UnserializeAttr(types, box, BackAttrs(types, it, made), rest)
  {
    hide UnserializeAttr, SubTypeText, RowsText, CustomText, BackSubType, Persisted, BackEntries, NoBlanks, TagOrder;
    var subtyped := BackSubType(types, it, made);
    var afterRows := CustomText(it) + rest;
    Assoc(SubTypeText(types, it) + RowsText(types, it, TAGS), CustomText(it), rest);
    Assoc(SubTypeText(types, it), RowsText(types, it, TAGS), afterRows);
    SubTypeReads(types, box, it, made, RowsText(types, it, TAGS) + afterRows);
    RowsRead(types, box, it, subtyped, TAGS, afterRows);
    CustomReads(types, box, it, Persisted(types, it, subtyped, TAGS), rest);
  }

  lemma NewIsPlain(types: Types, drawn: Drawn, id: nat)
    ensures CreateItem(types, drawn, id).Some? <==> types(id).known
    ensures CreateItem(types, drawn, id).Some? ==>
              && CreateItem(types, drawn, id).value.custom == None && CreateItem(types, drawn, id).value.kids == []
              && CreateItem(types, drawn, id).value.extras == NO_EXTRAS
  {
  }

  /**
   Loading what was saved consumes exactly the saved bytes and gives back the tree, contents in
   order at every depth; it fails if and only if some custom attribute in the tree is blank.
   */
  lemma {:induction false} LoadSaved(types: Types, draws: Draws, it: Item, rest: seq<Byte>)
    requires Storable(types, it)
    ensures LoadItem(types, draws, SaveItem(types, it) + rest)
         == if Readable(it) then Some((Some(Back(types, draws, it)), rest)) else None
    decreases it, 1
  {
    hide Le, FromLe, ReadInt, CreateItem, UnserializeAttr, AttrsText, BackAttrs, NoBlanks, Pow256, LoadContainer,
         SaveKids;
    Powers();
    NewIsPlain(types, draws([]), it.id);
    var box, made := types(it.id).container, CreateItem(types, draws([]), it.id).value;
    var body := if box then [ATTR_CONTAINER_ITEMS] + Le(|it.kids|, 4) + SaveKids(types, it, |it.kids|) else [];
    var tail := body + [0] + rest;
    Assoc(Le(it.id, 2) + AttrsText(types, it) + body, [0], rest);
    Assoc(Le(it.id, 2) + AttrsText(types, it), body, [0] + rest);
    Assoc(Le(it.id, 2), AttrsText(types, it), body + ([0] + rest));
    Assoc(body, [0], rest);
    ReadWritten(it.id, 2, false, AttrsText(types, it) + tail);
    AttrsRead(types, box, it, made, tail);
    if !(it.custom.Some? && !NoBlanks(it.custom.value)) {
      BodyRead(types, draws, it, BackAttrs(types, it, made), body, rest);
      assert BackKids(types, draws, it.kids[..|it.kids|]) + [] == BackKids(types, draws, it.kids);
      if box {
        KidsLoad(types, draws, it, |it.kids|, [], rest);
      }
    }
  }

  lemma BodyRead(types: Types, draws: Draws, it: Item, back: Item, body: seq<Byte>, rest: seq<Byte>)
    requires |it.kids| < 0x1_0000_0000
    requires var kids := SaveKids(types, it, |it.kids|);
             body == if types(it.id).container then [ATTR_CONTAINER_ITEMS] + Le(|it.kids|, 4) + kids else []
    ensures UnserializeAttr(types, types(it.id).container, back, body + [0] + rest)
         == if types(it.id).container
            then Some(Loaded(back, |it.kids|, SaveKids(types, it, |it.kids|) + ([0] + rest)))
            else Some(Loaded(back, 0, rest))
  {
    hide Le, FromLe, ReadInt, Pow256, SaveKids;
    Powers();
    Assoc(body, [0], rest);
    if types(it.id).container {
      var kids := SaveKids(types, it, |it.kids|);
      Assoc([ATTR_CONTAINER_ITEMS] + Le(|it.kids|, 4), kids, [0] + rest);
      Tagged(ATTR_CONTAINER_ITEMS, Le(|it.kids|, 4), kids + ([0] + rest));
      ReadWritten(|it.kids|, 4, false, kids + ([0] + rest));
    } else {
      assert body + [0] + rest == [0] + rest && ([0] + rest)[1..] == rest;
    }
  }

  lemma {:induction false} KidsLoad(types: Types, draws: Draws, it: Item, n: nat, itemlist: seq<Item>, rest: seq<Byte>)
    requires Storable(types, it) && n <= |it.kids|
    ensures LoadContainer(types, draws, n, SaveKids(types, it, n) + ([0] + rest), itemlist)
         == if forall k | 0 <= k < n :: Readable(it.kids[k])
            then Some((BackKids(types, draws, it.kids[..n]) + itemlist, rest)) else None
    decreases it, 0, n
  {
    hide LoadItem, SaveItem, Back, Readable;
    if n == 0 {
      assert [] + ([0] + rest) == [0] + rest && ([0] + rest)[1..] == rest;
      assert BackKids(types, draws, it.kids[..0]) + itemlist == itemlist;
    } else {
      var kid := it.kids[n - 1];
      Assoc(SaveItem(types, kid), SaveKids(types, it, n - 1), [0] + rest);
      LoadSaved(types, Under(draws, n - 1), kid, SaveKids(types, it, n - 1) + ([0] + rest));
      if Readable(kid) {
        var back := [Back(types, Under(draws, n - 1), kid)];
        KidsLoad(types, draws, it, n - 1, back + itemlist, rest);
        assert BackKids(types, draws, it.kids[..n]) == BackKids(types, draws, it.kids[..n - 1]) + back;
        assert BackKids(types, draws, it.kids[..n - 1]) + (back + itemlist)
            == BackKids(types, draws, it.kids[..n]) + itemlist;
      }
    }
  }

  // ----- What comes back, attribute by attribute -----

  function Lookup(it: Item, a: Attr): Option<Val>
  {
    if a in it.attrs then Some(it.attrs[a]) else None
  }

  function RowAttr(tag: Byte): Option<Attr>
  {
    match RowOf(tag)
    case None => None
    case Some(row) => Some(row.attr)
  }

  lemma PutLocal(types: Types, it: Item, x: Item, y: Item, tag: Byte, a: Attr)
    ensures RowAttr(tag) != Some(a) ==> Lookup(Put(types, it, x, tag), a) == Lookup(x, a)
    ensures RowAttr(tag) == Some(a) && Lookup(x, a) == Lookup(y, a) ==>
              Lookup(Put(types, it, x, tag), a) == Lookup(Put(types, it, y, tag), a)
  {
    hide RowOf, Written, Clip, Trunc, GetInt, GetStr, TakeInt, SetStr, Lookup;
    match RowOf(tag)
    case None =>
    case Some(Row(b, form)) =>
      if form.String? {
        SetStrLocal(x, y, b, Clip(GetStr(it, b)), a);
      } else {
        TakeIntLocal(x, y, b, Trunc(GetInt(it, b), form.width, form.signed), a);
      }
  }

  lemma TakeIntLocal(x: Item, y: Item, b: Attr, n: int, a: Attr)
    ensures a != b ==> Lookup(TakeInt(x, b, n), a) == Lookup(x, a)
    ensures Lookup(x, b) == Lookup(y, b) ==> Lookup(TakeInt(x, b, n), b) == Lookup(TakeInt(y, b, n), b)
  {
    hide AsSigned;
  }

  lemma SetStrLocal(x: Item, y: Item, b: Attr, s: seq<Byte>, a: Attr)
    ensures a != b ==> Lookup(SetStr(x, b, s), a) == Lookup(x, a)
    ensures Lookup(x, b) == Lookup(y, b) ==> Lookup(SetStr(x, b, s), b) == Lookup(SetStr(y, b, s), b)
  {
  }

  lemma {:induction false} Untouched(types: Types, it: Item, back: Item, tags: seq<Byte>, a: Attr)
    requires forall t <- tags :: RowAttr(t) != Some(a)
    ensures Lookup(Persisted(types, it, back, tags), a) == Lookup(back, a)
    decreases |tags|
  {
    hide RowOf, Put;
    if tags != [] {
      PutLocal(types, it, back, back, tags[0], a);
      Untouched(types, it, Put(types, it, back, tags[0]), tags[1..], a);
    }
  }

  lemma {:induction false} TouchedOnce(types: Types, it: Item, back: Item, tags: seq<Byte>, k: nat, a: Attr)
    requires k < |tags| && RowAttr(tags[k]) == Some(a)
    requires forall j | 0 <= j < |tags| && j != k :: RowAttr(tags[j]) != Some(a)
    ensures Lookup(Persisted(types, it, back, tags), a) == Lookup(Put(types, it, back, tags[k]), a)
    decreases k
  {
    hide RowAttr, Put;
    var back', rest := Put(types, it, back, tags[0]), tags[1..];
    if k == 0 {
      forall t | t in rest ensures RowAttr(t) != Some(a) {
        var j :| 0 <= j < |rest| && rest[j] == t;
        assert tags[j + 1] == t;
      }
      Untouched(types, it, back', rest, a);
    } else {
      forall j | 0 <= j < |rest| && j != k - 1 ensures RowAttr(rest[j]) != Some(a) {
        assert rest[j] == tags[j + 1];
      }
      PutLocal(types, it, back, back, tags[0], a);
      PutLocal(types, it, back', back, tags[k], a);
      TouchedOnce(types, it, back', rest, k - 1, a);
    }
  }

  /** Where serializeAttr writes an attribute; the last five it never writes from the list. */
  function Place(a: Attr): nat
  {
    match a
    case ActionId => 0
    case Text => 1
    case Date => 2
    case Writer => 3
    case Description => 4
    case Duration => 5
    case DecayState => 6
    case Name => 7
    case Article => 8
    case PluralName => 9
    case Weight => 10
    case Attack => 11
    case AttackSpeed => 12
    case Defense => 13
    case ExtraDefense => 14
    case Armor => 15
    case HitChance => 16
    case ShootRange => 17
    case DecayTo => 18
    case _ => 19
  }

  lemma EveryPlace(k: nat)
    requires k < |TAGS|
    ensures RowAttr(TAGS[k]).Some? && Place(RowAttr(TAGS[k]).value) == k
  {
  }

  function FormOf(a: Attr): Form
  {
    match a
    case Text | Writer | Description | Name | Article | PluralName => String
    case ActionId | WrapId => Num(2, false)
    case HitChance => Num(1, true)
    case DecayState | ShootRange | StoreItem | OpenContainer => Num(1, false)
    case Date | Weight | AttackSpeed => Num(4, false)
    case _ => Num(4, true)
  }

  lemma PlaceOf(a: Attr)
    ensures |TAGS| == 19
    ensures Place(a) < 19 ==> RowOf(TAGS[Place(a)]) == Some(Row(a, FormOf(a))) && RowAttr(TAGS[Place(a)]) == Some(a)
  {
  }

  /** Each attribute is read from its own row, or left as the new item has it. */
  lemma OwnRow(types: Types, it: Item, back: Item, a: Attr)
    ensures |TAGS| == 19
    ensures Lookup(Persisted(types, it, back, TAGS), a)
         == if Place(a) < 19 then Lookup(Put(types, it, back, TAGS[Place(a)]), a) else Lookup(back, a)
  {
    hide RowAttr, Place, TagOrder, Persisted, Put;
    PlaceOf(a);
    forall j | 0 <= j < 19 && j != Place(a) ensures RowAttr(TAGS[j]) != Some(a) {
      EveryPlace(j);
    }
    if Place(a) < 19 {
      TouchedOnce(types, it, back, TAGS, Place(a), a);
    } else {
      Untouched(types, it, back, TAGS, a);
    }
  }

  function BackString(it: Item, a: Attr): Option<Val>
  {
    if Clip(GetStr(it, a)) == [] then None else Some(Str(Clip(GetStr(it, a))))
  }

  function BackInt(it: Item, a: Attr, width: nat, signed: bool): Option<Val>
  {
    if a in it.attrs then Some(Int(Trunc(GetInt(it, a), width, signed))) else None
  }

  function AtLeast(low: int, n: int): int
  {
    if n < low then low else n
  }

  /** The attribute after saving and loading, for an item that keeps its id. */
  function BackAttr(types: Types, drawn: Drawn, it: Item, a: Attr): Option<Val>
  {
    var t := types(it.id);
    match a
    case ActionId =>
      var n := GetInt(it, a) % 65536;
      if t.moveable && n != 0 then Some(Int(AtLeast(100, n))) else None
    case Text | Writer | Description | Name | Article | PluralName => BackString(it, a)
    case Date => if GetInt(it, a) != 0 then Some(Int(Trunc(GetInt(it, a), 4, true))) else None
    case Duration =>
      if a in it.attrs then Some(Int(AtLeast(0, Trunc(GetInt(it, a), 4, true))))
      else if drawn(it.id) != 0 then Some(Int(drawn(it.id)))
      else None
    case DecayState =>
      var n := GetInt(it, a) % 256;
      if n == 1 || n == 2 then Some(Int(DECAYING_PENDING)) else None
    case AttackSpeed => if a in it.attrs then Some(Int(AtLeast(100, Trunc(GetInt(it, a), 4, false)))) else None
    case Weight => BackInt(it, a, 4, false)
    case Attack | Defense | ExtraDefense | Armor | DecayTo => BackInt(it, a, 4, true)
    case HitChance => BackInt(it, a, 1, true)
    case ShootRange => BackInt(it, a, 1, false)
    case Charges =>
      if t.fluidOrSplash || t.stackable || t.charges == 0 then None
      else Some(Int(if ChargesOf(it) != 0 then ChargesOf(it) else t.charges % 65536))
    case FluidType =>
      if !t.fluidOrSplash then None
      else Some(Int(if ChargesOf(it) != 0 then ChargesOf(it) else GetInt(it, a) % 256))
    case WrapId | StoreItem | OpenContainer | UniqueId | Owner | CorpseOwner | DoorId => None
  }

  function BackCount(types: Types, it: Item): Byte
  {
    var t := types(it.id);
    if t.fluidOrSplash then 1
    else if t.stackable then if ChargesOf(it) != 0 then ChargesOf(it) % 256 else it.count
    else if t.charges == 0 && ChargesOf(it) != 0 then ChargesOf(it) % 256
    else 1
  }

  predicate KeepsId(types: Types, it: Item)
  {
    types(it.id).known && (types(it.id).container || CreatedId(it.id) == it.id)
  }

  lemma NewItemBack(types: Types, drawn: Drawn, id: nat, n: nat, a: Attr)
    requires types(id).fluidOrSplash || types(id).stackable || n == 0
    ensures var r, t := NewItem(types, drawn, id, n), types(id);
            && r.id == id && (t.fluidOrSplash || !t.stackable ==> r.count == 1)
            && (a == Charges ==>
                  Lookup(r, a) == if t.fluidOrSplash || t.stackable || t.charges == 0 then None
                                  else Some(Int(t.charges % 65536)))
            && (a == FluidType ==> Lookup(r, a).Some? == t.fluidOrSplash)
            && (a != Charges && a != FluidType ==>
                  Lookup(r, a) == if a == Duration && drawn(id) != 0 then Some(Int(drawn(id))) else None)
  {
    hide NewSubType, SetInt, Lookup;
    NewSubTypeAttrs(types, id, n);
    SetIntLookup(NewSubType(types, id, n), Duration, drawn(id), a);
  }

  lemma SetIntLookup(it: Item, b: Attr, n: int, a: Attr)
    requires b != AttackSpeed
    ensures Lookup(SetInt(it, b, n), a) == if a == b then Some(Int(n)) else Lookup(it, a)
    ensures SetInt(it, b, n).id == it.id && SetInt(it, b, n).count == it.count
  {
  }

  lemma NewSubTypeAttrs(types: Types, id: nat, n: nat)
    requires types(id).fluidOrSplash || types(id).stackable || n == 0
    ensures var r, t := NewSubType(types, id, n), types(id);
            && r.id == id && (t.fluidOrSplash || !t.stackable ==> r.count == 1)
            && (forall a: Attr | a != Charges && a != FluidType :: Lookup(r, a) == None)
            && (Lookup(r, FluidType).Some? <==> t.fluidOrSplash)
            && Lookup(r, Charges) == if t.fluidOrSplash || t.stackable || t.charges == 0 then None
                                     else Some(Int(t.charges % 65536))
  {
  }

  lemma NewBack(types: Types, drawn: Drawn, it: Item, a: Attr)
    requires KeepsId(types, it)
    ensures var r, t := CreateItem(types, drawn, it.id).value, types(it.id);
            && r.id == it.id && (t.fluidOrSplash || !t.stackable ==> r.count == 1)
            && (a == Charges ==>
                  Lookup(r, a) == if t.fluidOrSplash || t.stackable || t.charges == 0 then None
                                  else Some(Int(t.charges % 65536)))
            && (a == FluidType ==> Lookup(r, a).Some? == t.fluidOrSplash)
            && (a != Charges && a != FluidType ==>
                  Lookup(r, a) == if a == Duration && drawn(it.id) != 0 then Some(Int(drawn(it.id))) else None)
  {
    hide NewItem;
    var t := types(it.id);
    NewItemBack(types, drawn, it.id, if !t.container && t.stackable then 1 else 0, a);
  }

  lemma SubTypeBack(types: Types, drawn: Drawn, it: Item, a: Attr)
    requires KeepsId(types, it)
    ensures var r := BackSubType(types, it, CreateItem(types, drawn, it.id).value);
            && r.id == it.id && r.count == BackCount(types, it)
            && (a == Charges || a == FluidType ==> Lookup(r, a) == BackAttr(types, drawn, it, a))
            && (a != Charges && a != FluidType ==>
                  Lookup(r, a) == if a == Duration && drawn(it.id) != 0 then Some(Int(drawn(it.id))) else None)
  {
    hide Trunc, Clip, CreateItem, NewItem, CreatedId, AtLeast;
    NewIsPlain(types, drawn, it.id);
    NewBack(types, drawn, it, a);
  }

  /** A written attribute, read back over what the new item had. */
  lemma PutBack(types: Types, drawn: Drawn, it: Item, back: Item, tag: Byte, a: Attr)
    requires Place(a) < 19 && RowOf(tag) == Some(Row(a, FormOf(a)))
    requires Lookup(back, a) == if a == Duration && drawn(it.id) != 0 then Some(Int(drawn(it.id))) else None
    ensures Lookup(Put(types, it, back, tag), a) == BackAttr(types, drawn, it, a)
  {
    hide RowOf, Clip, Pow256;
    Powers();
    NoText(it, a);
    if a == Date {
      SignedOfUnsigned(GetInt(it, a));
    }
  }

  lemma NoText(it: Item, a: Attr)
    ensures a !in it.attrs ==> GetStr(it, a) == [] && GetInt(it, a) == 0
    ensures GetStr(it, a) == [] ==> Clip(GetStr(it, a)) == []
  {
  }

  lemma SignedOfUnsigned(n: int)
    ensures AsSigned(Trunc(n, 4, false), 4) == Trunc(n, 4, true)
  {
  }

  /** Every attribute of the loaded item, in closed form. */
  lemma AttrBack(types: Types, draws: Draws, it: Item, a: Attr)
    requires KeepsId(types, it)
    ensures Lookup(Back(types, draws, it), a) == BackAttr(types, draws([]), it, a)
    ensures Back(types, draws, it).id == it.id && Back(types, draws, it).count == BackCount(types, it)
    ensures Back(types, draws, it).extras == NO_EXTRAS
  {
    hide Trunc, Clip, Persisted, BackSubType, CreateItem, BackCount, TagOrder, BackAttr, FormOf, Put;
    NewIsPlain(types, draws([]), it.id);
    var r := BackSubType(types, it, CreateItem(types, draws([]), it.id).value);
    SubTypeBack(types, draws([]), it, a);
    OwnRow(types, it, r, a);
    PlaceOf(a);
    if Place(a) < 19 {
      PutBack(types, draws([]), it, r, TAGS[Place(a)], a);
    } else {
      NeverWritten(types, draws([]), it, a);
    }
  }

  lemma NeverWritten(types: Types, drawn: Drawn, it: Item, a: Attr)
    requires Place(a) == 19
    ensures a != Duration && (a != Charges && a != FluidType ==> BackAttr(types, drawn, it, a) == None)
  {
  }

  // ----- When nothing changes -----

  /** The class invariants of an item: attributes hold their own kind, custom keys are distinct and lower case. */
  ghost predicate Typed(it: Item)
  {
    && (forall a <- it.attrs :: if IsString(a) then it.attrs[a].Str? && it.attrs[a].s != [] else it.attrs[a].Int?)
    && (it.custom.Some? ==> OwnKeys(it.custom.value))
    && forall k | 0 <= k < |it.kids| :: Typed(it.kids[k])
  }

  predicate IsString(a: Attr)
  {
    a == Text || a == Writer || a == Description || a == Name || a == Article || a == PluralName
  }

  ghost predicate OwnKeys(entries: seq<Entry>)
  {
    && (forall e <- entries :: Lower(e.key) == e.key)
    && forall j, k | 0 <= j < k < |entries| :: entries[j].key != entries[k].key
  }

  predicate Within(low: int, n: int, high: int)
  {
    low <= n < high
  }

  /** The values of an attribute that one save and load leave alone. */
  predicate Survives(types: Types, drawn: Drawn, it: Item, a: Attr)
  {
    var t, n := types(it.id), GetInt(it, a);
    if a !in it.attrs then
      match a
      case Duration => drawn(it.id) == 0
      case Charges => t.fluidOrSplash || t.stackable || t.charges == 0
      case FluidType => !t.fluidOrSplash
      case _ => true
    else
      match a
      case Text | Writer | Description | Name | Article | PluralName => |GetStr(it, a)| <= MAX_STRING
      case ActionId => t.moveable && Within(100, n, 0x1_0000)
      case Date => n != 0 && Within(-0x8000_0000, n, 0x8000_0000)
      case Duration => Within(0, n, 0x8000_0000)
      case DecayState => n == DECAYING_PENDING
      case AttackSpeed => Within(100, n, 0x1_0000_0000)
      case Weight => Within(0, n, 0x1_0000_0000)
      case Attack | Defense | ExtraDefense | Armor | DecayTo => Within(-0x8000_0000, n, 0x8000_0000)
      case HitChance => Within(-128, n, 128)
      case ShootRange => Within(0, n, 256)
      case Charges =>
        && !t.fluidOrSplash && !t.stackable && t.charges != 0
        && Within(0, n, 0x1_0000) && (n == 0 ==> t.charges % 0x1_0000 == 0)
      case FluidType => t.fluidOrSplash && (if ChargesOf(it) != 0 then n == ChargesOf(it) else Within(0, n, 256))
      case WrapId | StoreItem | OpenContainer | UniqueId | Owner | CorpseOwner | DoorId => false
  }

  lemma SurvivesExactly(types: Types, drawn: Drawn, it: Item, a: Attr)
    requires Typed(it)
    ensures BackAttr(types, drawn, it, a) == Lookup(it, a) <==> Survives(types, drawn, it, a)
  {
    hide BackAttr, Survives, Typed, Lookup;
    if IsString(a) {
      StringSurvives(types, drawn, it, a);
    } else if a == Charges || a == FluidType {
      CountSurvives(types, drawn, it, a);
    } else if a == ActionId || a == Date || a == Duration || a == DecayState {
      TimedSurvives(types, drawn, it, a);
    } else {
      NumberSurvives(types, drawn, it, a);
    }
  }

  /** A number that is written and read is itself again exactly when it is in range. */
  lemma TruncKeeps(n: int)
    ensures Trunc(n, 1, false) == n <==> Within(0, n, 256)
    ensures Trunc(n, 1, true) == n <==> Within(-128, n, 128)
    ensures Trunc(n, 4, false) == n <==> Within(0, n, 0x1_0000_0000)
    ensures Trunc(n, 4, true) == n <==> Within(-0x8000_0000, n, 0x8000_0000)
  {
    hide Pow256;
    Powers();
  }

  lemma TimedSurvives(types: Types, drawn: Drawn, it: Item, a: Attr)
    requires Typed(it) && (a == ActionId || a == Date || a == Duration || a == DecayState)
    ensures BackAttr(types, drawn, it, a) == Lookup(it, a) <==> Survives(types, drawn, it, a)
  {
    hide Trunc;
    TruncKeeps(GetInt(it, a));
  }

  lemma StringSurvives(types: Types, drawn: Drawn, it: Item, a: Attr)
    requires Typed(it) && IsString(a)
    ensures BackAttr(types, drawn, it, a) == Lookup(it, a) <==> Survives(types, drawn, it, a)
  {
  }

  lemma CountSurvives(types: Types, drawn: Drawn, it: Item, a: Attr)
    requires Typed(it) && (a == Charges || a == FluidType)
    ensures BackAttr(types, drawn, it, a) == Lookup(it, a) <==> Survives(types, drawn, it, a)
  {
    hide GetStr, BackString, BackInt, Trunc;
  }

  lemma NumberSurvives(types: Types, drawn: Drawn, it: Item, a: Attr)
    requires Typed(it) && !IsString(a) && a != Charges && a != FluidType
    requires a != ActionId && a != Date && a != Duration && a != DecayState
    ensures BackAttr(types, drawn, it, a) == Lookup(it, a) <==> Survives(types, drawn, it, a)
  {
    hide Trunc, GetStr, ChargesOf, BackString;
    TruncKeeps(GetInt(it, a));
  }

  predicate Short(e: Entry)
  {
    |e.key| <= MAX_STRING && (e.value.CString? ==> |e.value.s| <= MAX_STRING)
  }

  /** A custom table survives unless it is empty or holds a string too long to write. */
  predicate CustomSurvives(it: Item)
  {
    it.custom.Some? ==> it.custom.value != [] && forall e <- it.custom.value :: Short(e)
  }

  lemma {:induction false} WithoutAbsent(entries: seq<Entry>, key: seq<Byte>)
    requires forall e <- entries :: e.key != key
    ensures Without(entries, key) == entries
  {
    if entries != [] {
      WithoutAbsent(entries[1..], key);
    }
  }

  lemma {:induction false} WithoutKeeps(entries: seq<Entry>, key: seq<Byte>)
    ensures forall e <- Without(entries, key) :: e in entries
  {
    if entries != [] {
      WithoutKeeps(entries[1..], key);
    }
  }

  lemma {:induction false} EntriesBack(done: seq<Entry>, entries: seq<Entry>)
    requires OwnKeys(done + entries) && forall e <- entries :: Short(e)
    ensures BackEntries(entries, if done == [] then None else Some(done))
         == if done + entries == [] then None else Some(done + entries)
    decreases |entries|
  {
    hide Lower;
    if entries == [] {
      assert done + [] == done;
    } else {
      var e := entries[0];
      assert (done + entries)[|done|] == e;
      forall d | d in done ensures d.key != e.key {
        var j :| 0 <= j < |done| && done[j] == d;
        assert (done + entries)[j] == d;
      }
      WithoutAbsent(done, e.key);
      assert done + [e] + entries[1..] == done + entries;
      EntriesBack(done + [e], entries[1..]);
    }
  }

  lemma {:induction false} BackIsShort(entries: seq<Entry>, custom: Option<seq<Entry>>)
    requires custom.Some? ==> forall e <- custom.value :: Short(e)
    ensures BackEntries(entries, custom).Some? ==> forall e <- BackEntries(entries, custom).value :: Short(e)
    decreases |entries|
  {
    if entries != [] {
      var key := Clip(entries[0].key);
      if custom.Some? {
        WithoutKeeps(custom.value, Lower(key));
      }
      BackIsShort(entries[1..], SetCustom(custom, key, ClipValue(entries[0].value)));
    }
  }

  lemma {:induction false} CustomBack(it: Item)
    requires it.custom.Some? ==> OwnKeys(it.custom.value)
    ensures (if it.custom.Some? then BackEntries(it.custom.value, None) else None) == it.custom <==> CustomSurvives(it)
  {
    if it.custom.Some? {
      BackIsShort(it.custom.value, None);
      if forall e <- it.custom.value :: Short(e) {
        assert [] + it.custom.value == it.custom.value;
        EntriesBack([], it.custom.value);
      }
    }
  }

  lemma KidsBack(types: Types, draws: Draws, it: Item)
    requires types(it.id).known
    ensures |Back(types, draws, it).kids| == |it.kids|
    ensures forall k | 0 <= k < |it.kids| :: Back(types, draws, it).kids[k] == Back(types, Under(draws, k), it.kids[k])
  {
    hide CreateItem, BackAttrs;
    NewIsPlain(types, draws([]), it.id);
  }

  ghost predicate Unchanged(types: Types, draws: Draws, it: Item)
  {
    && KeepsId(types, it) && it.count == BackCount(types, it) && CustomSurvives(it) && it.extras == NO_EXTRAS
    && (forall a: Attr :: Survives(types, draws([]), it, a))
    && forall k | 0 <= k < |it.kids| :: Unchanged(types, Under(draws, k), it.kids[k])
  }

  /**
   As parsed, before its decaying starts, a tree is as it was if and only if every item of it holds
   only values that survive.
   */
  lemma {:induction false} SameExactly(types: Types, draws: Draws, it: Item)
    requires Storable(types, it) && Typed(it)
    ensures Back(types, draws, it) == it <==> Unchanged(types, draws, it)
    decreases it
  {
    hide CreateItem, BackAttrs, BackAttr, BackCount, Survives, KeepsId, CustomSurvives;
    NewIsPlain(types, draws([]), it.id);
    var back := Back(types, draws, it);
    KidsBack(types, draws, it);
    forall k | 0 <= k < |it.kids|
      ensures back.kids[k] == it.kids[k] <==> Unchanged(types, Under(draws, k), it.kids[k])
    {
      SameExactly(types, Under(draws, k), it.kids[k]);
    }
    SameShallow(types, draws, it);
    assert back.kids == it.kids <==> forall k | 0 <= k < |it.kids| :: back.kids[k] == it.kids[k];
  }

  /**
   The items that are as they were once loaded onto a tile: those that can decay were decaying with
   time left, and every other value survives.
   */
  ghost predicate Stays(types: Types, draws: Draws, it: Item)
  {
    && StaysAlone(types, draws([]), it)
    && forall k | 0 <= k < |it.kids| :: Stays(types, Under(draws, k), it.kids[k])
  }

  predicate Decays(types: Types, it: Item)
  {
    !types(it.id).container && CanDecay(types, it)
  }

  ghost predicate StaysAlone(types: Types, drawn: Drawn, it: Item)
  {
    && KeepsId(types, it) && it.count == BackCount(types, it) && CustomSurvives(it) && it.extras == NO_EXTRAS
    && (forall a: Attr :: a != DecayState || !Decays(types, it) ==> Survives(types, drawn, it, a))
    && (Decays(types, it) ==> HasTime(it) && Lookup(it, DecayState) == Some(Int(DECAYING_TRUE)))
  }

  /** A tree saved and loaded onto a tile is as it was, with nothing decayed on the way, exactly then. */
  lemma {:induction false} LiveExactly(types: Types, draws: Draws, it: Item)
    requires Storable(types, it) && Typed(it)
    ensures Live(types, Back(types, draws, it)) == it && Lasting(types, Back(types, draws, it))
            <==> Stays(types, draws, it)
    decreases it
  {
    hide CreateItem, BackAttrs, BackAttr, BackCount, Survives, KeepsId, CustomSurvives, StaysAlone;
    NewIsPlain(types, draws([]), it.id);
    var back := Back(types, draws, it);
    KidsBack(types, draws, it);
    forall k | 0 <= k < |it.kids|
      ensures Live(types, back.kids[k]) == it.kids[k] && Lasting(types, back.kids[k])
              <==> Stays(types, Under(draws, k), it.kids[k])
    {
      assert back.kids[k] == Back(types, Under(draws, k), it.kids[k]);
      LiveExactly(types, Under(draws, k), it.kids[k]);
    }
    LiveAlone(types, draws, it);
    if back.id == it.id && types(it.id).container {
      var live := Live(types, back);
      assert live.kids == it.kids <==> forall k | 0 <= k < |it.kids| :: live.kids[k] == it.kids[k];
    }
  }

  /** The item without its contents. */
  lemma LiveAlone(types: Types, draws: Draws, it: Item)
    requires Storable(types, it) && Typed(it)
    ensures var back := Back(types, draws, it);
            var live := Live(types, back);
            && (live.id == it.id && live.count == it.count && live.attrs == it.attrs && live.custom == it.custom
                && live.extras == it.extras && (types(back.id).container || Lasting(types, back))
                <==> StaysAlone(types, draws([]), it))
            && (StaysAlone(types, draws([]), it) ==> back.id == it.id)
  {
    hide CreateItem, BackAttr, BackCount, Survives, CustomSurvives, Persisted, BackSubType, TagOrder;
    NewIsPlain(types, draws([]), it.id);
    CustomBack(it);
    if KeepsId(types, it) {
      AttrsAlone(types, draws, it);
    } else {
      NewIdDiffers(types, draws, it);
    }
  }

  lemma AttrsAlone(types: Types, draws: Draws, it: Item)
    requires types(it.id).known && Typed(it) && KeepsId(types, it)
    ensures var back := Back(types, draws, it);
            var live := Live(types, back);
            && back.id == it.id && back.count == BackCount(types, it) && live.count == back.count
            && live.custom == back.custom && live.extras == NO_EXTRAS
            && (live.attrs == it.attrs && (types(it.id).container || Lasting(types, back))
                <==>
                && (forall a: Attr :: a != DecayState || !Decays(types, it) ==> Survives(types, draws([]), it, a))
                && (Decays(types, it) ==> HasTime(it) && Lookup(it, DecayState) == Some(Int(DECAYING_TRUE))))
  {
    hide CreateItem, BackAttr, BackCount, Survives, Back, Typed, KeepsId, IsString, Live, CanDecay, HasTime, Lookup;
    var back := Back(types, draws, it);
    var live := Live(types, back);
    EachSurvives(types, draws, it);
    AttrBack(types, draws, it, DecayState);
    NeverBackDecaying(types, draws([]), it);
    LiveLookups(types, back);
    SameLookups(live, it);
    SameDecay(types, back, it);
  }

  lemma LiveLookups(types: Types, it: Item)
    ensures var live := Live(types, it);
            && live.id == it.id && live.count == it.count && live.custom == it.custom && live.extras == it.extras
            && (forall a: Attr | a != DecayState :: Lookup(live, a) == Lookup(it, a))
            && Lookup(live, DecayState) == if !types(it.id).container && CanDecay(types, it) && HasTime(it)
                                           then Some(Int(DECAYING_TRUE)) else Lookup(it, DecayState)
  {
    hide CanDecay, HasTime;
  }

  lemma EachSurvives(types: Types, draws: Draws, it: Item)
    requires Typed(it) && KeepsId(types, it)
    ensures forall a: Attr ::
              Lookup(Back(types, draws, it), a) == Lookup(it, a) <==> Survives(types, draws([]), it, a)
  {
    hide BackAttr, Survives, Back, Typed, KeepsId;
    forall a: Attr
      ensures Lookup(Back(types, draws, it), a) == Lookup(it, a) <==> Survives(types, draws([]), it, a)
    {
      AttrBack(types, draws, it, a);
      SurvivesExactly(types, draws([]), it, a);
    }
  }

  lemma NeverBackDecaying(types: Types, drawn: Drawn, it: Item)
    ensures BackAttr(types, drawn, it, DecayState) != Some(Int(DECAYING_TRUE))
  {
  }

  /** Whether and how long an item decays depends on its type and three attributes. */
  lemma SameDecay(types: Types, x: Item, y: Item)
    requires x.id == y.id
    ensures (Lookup(x, DecayTo) == Lookup(y, DecayTo) && Lookup(x, Duration) == Lookup(y, Duration)
             && Lookup(x, UniqueId) == Lookup(y, UniqueId)) ==> CanDecay(types, x) == CanDecay(types, y)
    ensures Lookup(x, Duration) == Lookup(y, Duration) ==> HasTime(x) == HasTime(y)
    ensures GetInt(x, DecayState) == DECAYING_TRUE ==> Lookup(x, DecayState) == Some(Int(DECAYING_TRUE))
  {
  }

  lemma SameLookups(x: Item, y: Item)
    ensures x.attrs == y.attrs <==> forall a: Attr :: Lookup(x, a) == Lookup(y, a)
  {
    if forall a: Attr :: Lookup(x, a) == Lookup(y, a) {
      forall a: Attr ensures a in x.attrs <==> a in y.attrs {
        assert Lookup(x, a) == Lookup(y, a);
      }
      forall a | a in x.attrs ensures x.attrs[a] == y.attrs[a] {
        assert Lookup(x, a) == Lookup(y, a);
      }
    }
  }

  lemma SameShallow(types: Types, draws: Draws, it: Item)
    requires types(it.id).known && Typed(it)
    ensures var back := Back(types, draws, it);
            && (back.id == it.id && back.count == it.count && back.attrs == it.attrs && back.custom == it.custom
                && back.extras == it.extras
                <==>
                && KeepsId(types, it) && it.count == BackCount(types, it) && CustomSurvives(it)
                && it.extras == NO_EXTRAS
                && forall a: Attr :: Survives(types, draws([]), it, a))
  {
    hide CreateItem, BackAttr, BackCount, Survives, CustomSurvives, Persisted, BackSubType, TagOrder;
    var back := Back(types, draws, it);
    NewIsPlain(types, draws([]), it.id);
    CustomBack(it);
    if KeepsId(types, it) {
      EachSurvives(types, draws, it);
      AttrBack(types, draws, it, Text);
      SameLookups(back, it);
    } else {
      NewIdDiffers(types, draws, it);
    }
  }

  lemma NewIdDiffers(types: Types, draws: Draws, it: Item)
    requires types(it.id).known && !KeepsId(types, it)
    ensures Back(types, draws, it).id != it.id
  {
    hide Persisted, BackSubType, TagOrder;
  }
}
