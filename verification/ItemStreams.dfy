/**
 The item printer and parser over their streams (server/src/fileloader.h, server/src/item.cpp,
 server/src/iomapserialize.cpp), proved against the functions of `ItemBytes`.
 */
module ItemStreams {
  import opened Basics
  import opened ItemBytes

  class PropWriteStream {
    var buffer: seq<Byte>

    constructor ()
      ensures buffer == []
    {
      buffer := [];
    }

    /** write<T> for a type of `k` bytes. */
    method Write(add: int, k: nat)
      modifies this
      ensures buffer == old(buffer) + Le(add, k)
    {
      var left, done := add, 0;
      while done < k
        invariant done <= k && buffer + Le(left, k - done) == old(buffer) + Le(add, k)
      {
        buffer := buffer + [left % 256];
        left := left / 256;
        done := done + 1;
      }
    }

    method WriteString(str: seq<Byte>)
      modifies this
      ensures buffer == old(buffer) + ItemBytes.WriteString(str)
    {
      if |str| > MAX_STRING {
        Write(0, 2);
        return;
      }
      Write(|str|, 2);
      buffer := buffer + str;
    }
  }

  class PropStream {
    const data: seq<Byte>
    var p: nat

    ghost predicate Valid()
      reads this
    {
      p <= |data|
    }

    function Rest(): seq<Byte>
      requires Valid()
      reads this
    {
      data[p..]
    }

    constructor (a: seq<Byte>)
      ensures Valid() && Rest() == a
    {
      data, p := a, 0;
    }

    /** read<T> for a type of `k` bytes. */
    method Read(k: nat, signed: bool) returns (ok: bool, ret: int)
      requires Valid()
      modifies this
      ensures Valid() && ok == ReadInt(old(Rest()), k, signed).Some?
      ensures ok ==> ReadInt(old(Rest()), k, signed) == Some((ret, Rest()))
      ensures !ok ==> p == old(p)
    {
      if |data| - p < k {
        return false, 0;
      }
      var n := FromLe(data[p..p + k]);
      assert Rest()[..k] == data[p..p + k];
      p := p + k;
      return true, if signed then AsSigned(n, k) else n;
    }

    method ReadString() returns (ok: bool, ret: seq<Byte>)
      requires Valid()
      modifies this
      ensures Valid() && ok == ItemBytes.ReadString(old(Rest())).Some?
      ensures ok ==> ItemBytes.ReadString(old(Rest())) == Some((ret, Rest()))
    {
      var read, strLen := Read(2, false);
      if !read || strLen < 0 || |data| - p < strLen {
        return false, [];
      }
      ret := data[p..p + strLen];
      assert Rest()[..strLen] == ret;
      p := p + strLen;
      ok := true;
    }

    method Skip(n: nat) returns (ok: bool)
      requires Valid()
      modifies this
      ensures Valid() && ok == (n <= |old(Rest())|)
      ensures ok ==> Rest() == old(Rest())[n..]
    {
      if |data| - p < n {
        return false;
      }
      p := p + n;
      return true;
    }
  }

  predicate IsContainer(types: Types, id: nat)
  {
    types(id).container
  }

  /** Item::serializeAttr. */
  method SerializeAttr(types: Types, it: Item, stream: PropWriteStream)
    modifies stream
    ensures stream.buffer == old(stream.buffer) + AttrsText(types, it)
  {
    hide SubTypeText, RowText, CustomText, Le, TagOrder;
    SerializeSubType(types, it, stream);
    ghost var afterSubType := stream.buffer;
    var k := 0;
    assert TAGS[0..] == TAGS;
    while k < |TAGS|
      invariant k <= |TAGS|
      invariant stream.buffer + RowsText(types, it, TAGS[k..]) == afterSubType + RowsText(types, it, TAGS)
    {
      assert TAGS[k..][1..] == TAGS[k + 1..];
      ghost var before := stream.buffer;
      SerializeRow(types, it, TAGS[k], stream);
      Assoc(before, RowText(types, it, TAGS[k]), RowsText(types, it, TAGS[k + 1..]));
      k := k + 1;
    }
    assert TAGS[k..] == [] && stream.buffer + [] == stream.buffer;
    SerializeCustom(it, stream);
    Assoc(old(stream.buffer), SubTypeText(types, it), RowsText(types, it, TAGS));
    Assoc(old(stream.buffer), SubTypeText(types, it) + RowsText(types, it, TAGS), CustomText(it));
  }

  method SerializeSubType(types: Types, it: Item, stream: PropWriteStream)
    modifies stream
    ensures stream.buffer == old(stream.buffer) + SubTypeText(types, it)
  {
    hide Le;
    var t := types(it.id);
    if t.stackable || t.fluidOrSplash {
      stream.buffer := stream.buffer + [15];
      stream.Write(if t.fluidOrSplash then GetInt(it, FluidType) else it.count, 1);
    }
    if ChargesOf(it) != 0 {
      stream.buffer := stream.buffer + [22];
      stream.Write(ChargesOf(it), 2);
    }
  }

  method SerializeRow(types: Types, it: Item, tag: Byte, stream: PropWriteStream)
    modifies stream
    ensures stream.buffer == old(stream.buffer) + RowText(types, it, tag)
  {
    hide Le, Written, ItemBytes.WriteString;
    var row := RowOf(tag);
    if row.Some? && Written(types, it, row.value.attr) {
      stream.buffer := stream.buffer + [tag];
      match row.value.form
      case Num(width, _) => stream.Write(GetInt(it, row.value.attr), width);
      case String => stream.WriteString(GetStr(it, row.value.attr));
    }
  }

  method SerializeCustom(it: Item, stream: PropWriteStream)
    modifies stream
    ensures stream.buffer == old(stream.buffer) + CustomText(it)
  {
    hide Le, EntriesText;
    if it.custom == None {
      assert stream.buffer + [] == stream.buffer;
    } else {
      stream.buffer := stream.buffer + [34];
      stream.Write(|it.custom.value|, 8);
      SerializeEntries(it.custom.value, stream);
      Assoc(old(stream.buffer), [34] + Le(|it.custom.value|, 8), EntriesText(it.custom.value));
    }
  }

  method SerializeEntries(entries: seq<Entry>, stream: PropWriteStream)
    modifies stream
    ensures stream.buffer == old(stream.buffer) + EntriesText(entries)
  {
    hide Le, ItemBytes.WriteString, ValueText;
    var k := 0;
    assert entries[0..] == entries;
    while k < |entries|
      invariant k <= |entries|
      invariant stream.buffer + EntriesText(entries[k..]) == old(stream.buffer) + EntriesText(entries)
    {
      var e := entries[k];
      ghost var before, rest := stream.buffer, EntriesText(entries[k + 1..]);
      assert entries[k..][1..] == entries[k + 1..];
      stream.WriteString(e.key);
      Serialize(e.value, stream);
      Assoc(before, ItemBytes.WriteString(e.key), ValueText(e.value));
      Assoc(before, ItemBytes.WriteString(e.key) + ValueText(e.value), rest);
      k := k + 1;
    }
    assert entries[k..] == [] && stream.buffer + [] == stream.buffer;
  }

  /** CustomAttribute::serialize. */
  method Serialize(value: Custom, stream: PropWriteStream)
    modifies stream
    ensures stream.buffer == old(stream.buffer) + ValueText(value)
  {
    hide Le, ItemBytes.WriteString;
    match value
    case Blank =>
      stream.buffer := stream.buffer + [0];
    case CString(s) =>
      stream.buffer := stream.buffer + [1];
      stream.WriteString(s);
    case CInt(n) =>
      stream.buffer := stream.buffer + [2];
      stream.Write(n, 8);
    case CDouble(bits) =>
      stream.buffer := stream.buffer + [3] + bits;
    case CBool(b) =>
      stream.buffer := stream.buffer + [4] + [if b then 1 else 0];
  }

  /** IOMapSerialize::saveItem. */
  method SaveItem(types: Types, it: Item, stream: PropWriteStream)
    modifies stream
    ensures stream.buffer == old(stream.buffer) + ItemBytes.SaveItem(types, it)
    decreases it
  {
    hide Le, AttrsText;
    stream.Write(it.id, 2);
    SerializeAttr(types, it, stream);
    ghost var afterAttrs := stream.buffer;
    if IsContainer(types, it.id) {
      stream.buffer := stream.buffer + [ATTR_CONTAINER_ITEMS];
      stream.Write(|it.kids|, 4);
      ghost var afterSize := stream.buffer;
      var n: nat := |it.kids|;
      while n > 0
        invariant n <= |it.kids|
        invariant stream.buffer + SaveKids(types, it, n) == afterSize + SaveKids(types, it, |it.kids|)
      {
        n := n - 1;
        ghost var before := stream.buffer;
        SaveItem(types, it.kids[n], stream);
        Assoc(before, ItemBytes.SaveItem(types, it.kids[n]), SaveKids(types, it, n));
      }
      assert stream.buffer + [] == stream.buffer;
      Assoc(afterAttrs, [ATTR_CONTAINER_ITEMS] + Le(|it.kids|, 4), SaveKids(types, it, |it.kids|));
    } else {
      assert afterAttrs + [] == afterAttrs;
    }
    stream.buffer := stream.buffer + [0];
  }

  /** Item::readAttr. */
  method ReadAttr(types: Types, it: Item, tag: Byte, stream: PropStream) returns (ok: bool, it': Item)
    requires stream.Valid()
    modifies stream
    ensures stream.Valid() && ok == ItemBytes.ReadAttr(types, it, tag, old(stream.Rest())).Some?
    ensures ok ==> ItemBytes.ReadAttr(types, it, tag, old(stream.Rest())) == Some((it', stream.Rest()))
  {
    hide ReadInt, ItemBytes.ReadString, ReadEntries, ItemBytes.ReadReflect, ItemBytes.ReadBoosts, TakeInt, SetStr,
         SetSubType;
    it' := it;
    if tag == 15 || tag == 12 || tag == 22 {
      var read, n := stream.Read(if tag == 22 then 2 else 1, false);
      if !read || n < 0 {
        return false, it;
      }
      return true, SetSubType(types, it, n);
    } else if tag == 34 {
      var read, size := stream.Read(8, false);
      if !read || size < 0 {
        return false, it;
      }
      var custom;
      ok, custom := ReadCustom(size, it.custom, stream);
      it' := it.(custom := custom);
    } else if tag == 42 {
      var read, size := stream.Read(2, false);
      if !read || size < 0 {
        return false, it;
      }
      var reflect;
      ok, reflect := ReadReflect(size, it.extras.reflect, stream);
      it' := it.(extras := it.extras.(reflect := reflect));
    } else if tag == 43 {
      var read, size := stream.Read(2, false);
      if !read || size < 0 {
        return false, it;
      }
      var boosts;
      ok, boosts := ReadBoosts(size, it.extras.boosts, stream);
      it' := it.(extras := it.extras.(boosts := boosts));
    } else if Skipped(tag) > 0 {
      ok := stream.Skip(Skipped(tag));
    } else {
      match RowOf(tag)
      case None =>
        ok := false;
      case Some(Row(a, Num(width, signed))) =>
        var read, n := stream.Read(width, signed);
        return read, if read then TakeInt(it, a, n) else it;
      case Some(Row(a, String)) =>
        var read, str := stream.ReadString();
        return read, if read then SetStr(it, a, str) else it;
    }
  }

  method ReadReflect(size: nat, reflect: map<int, (int, int)>, stream: PropStream)
    returns (ok: bool, reflect': map<int, (int, int)>)
    requires stream.Valid()
    modifies stream
    ensures stream.Valid() && ok == ItemBytes.ReadReflect(size, old(stream.Rest()), reflect).Some?
    ensures ok ==> ItemBytes.ReadReflect(size, old(stream.Rest()), reflect) == Some((reflect', stream.Rest()))
  {
    hide ReadInt;
    reflect' := reflect;
    var i := 0;
    while i < size
      invariant i <= size && stream.Valid()
      invariant ItemBytes.ReadReflect(size, old(stream.Rest()), reflect)
             == ItemBytes.ReadReflect(size - i, stream.Rest(), reflect')
    {
      var read, combat := stream.Read(2, false);
      if !read {
        return false, reflect;
      }
      var percent, chance;
      read, percent := stream.Read(2, false);
      if !read {
        return false, reflect;
      }
      read, chance := stream.Read(2, false);
      if !read {
        return false, reflect;
      }
      reflect' := reflect'[combat := (percent, chance)];
      i := i + 1;
    }
    ok := true;
  }

  method ReadBoosts(size: nat, boosts: map<int, int>, stream: PropStream)
    returns (ok: bool, boosts': map<int, int>)
    requires stream.Valid()
    modifies stream
    ensures stream.Valid() && ok == ItemBytes.ReadBoosts(size, old(stream.Rest()), boosts).Some?
    ensures ok ==> ItemBytes.ReadBoosts(size, old(stream.Rest()), boosts) == Some((boosts', stream.Rest()))
  {
    hide ReadInt;
    boosts' := boosts;
    var i := 0;
    while i < size
      invariant i <= size && stream.Valid()
      invariant ItemBytes.ReadBoosts(size, old(stream.Rest()), boosts)
             == ItemBytes.ReadBoosts(size - i, stream.Rest(), boosts')
    {
      var read, combat := stream.Read(2, false);
      if !read {
        return false, boosts;
      }
      var percent;
      read, percent := stream.Read(2, false);
      if !read {
        return false, boosts;
      }
      boosts' := boosts'[combat := percent];
      i := i + 1;
    }
    ok := true;
  }

  method ReadCustom(size: nat, custom: Option<seq<Entry>>, stream: PropStream)
    returns (ok: bool, custom': Option<seq<Entry>>)
    requires stream.Valid()
    modifies stream
    ensures stream.Valid() && ok == ReadEntries(size, old(stream.Rest()), custom).Some?
    ensures ok ==> ReadEntries(size, old(stream.Rest()), custom) == Some((custom', stream.Rest()))
  {
    hide ReadInt, ItemBytes.ReadString, ReadValue, SetCustom;
    custom' := custom;
    var i := 0;
    while i < size
      invariant i <= size && stream.Valid()
      invariant ReadEntries(size, old(stream.Rest()), custom) == ReadEntries(size - i, stream.Rest(), custom')
    {
      var read, key := stream.ReadString();
      if !read {
        return false, custom;
      }
      var value;
      read, value := Unserialize(stream);
      if !read {
        return false, custom;
      }
      custom' := SetCustom(custom', key, value);
      i := i + 1;
    }
    ok := true;
  }

  /** CustomAttribute::unserialize. */
  method Unserialize(stream: PropStream) returns (ok: bool, value: Custom)
    requires stream.Valid()
    modifies stream
    ensures stream.Valid() && ok == ReadValue(old(stream.Rest())).Some?
    ensures ok ==> ReadValue(old(stream.Rest())) == Some((value, stream.Rest()))
  {
    hide ReadInt, ItemBytes.ReadString;
    if stream.p == |stream.data| {
      return false, Blank;
    }
    var pos := stream.data[stream.p];
    stream.p := stream.p + 1;
    assert stream.Rest() == old(stream.Rest())[1..];
    match pos
    case 1 =>
      var read, str := stream.ReadString();
      return read, CString(str);
    case 2 =>
      var read, n := stream.Read(8, true);
      if !read || !(-0x8000_0000_0000_0000 <= n < 0x8000_0000_0000_0000) {
        return false, Blank;
      }
      return true, CInt(n);
    case 3 =>
      if |stream.data| - stream.p < 8 {
        return false, Blank;
      }
      value := CDouble(stream.data[stream.p..stream.p + 8]);
      assert value.bits == old(stream.Rest())[1..][..8];
      stream.p := stream.p + 8;
      ok := true;
    case 4 =>
      if |stream.data| - stream.p < 1 {
        return false, Blank;
      }
      value := CBool(stream.data[stream.p] != 0);
      stream.p := stream.p + 1;
      ok := true;
    case _ =>
      return false, Blank;
  }

  /** Item::unserializeAttr, with the count that Container::readAttr stores. */
  method UnserializeAttr(types: Types, box: bool, it: Item, stream: PropStream)
    returns (ok: bool, it': Item, serializationCount: nat)
    requires stream.Valid()
    modifies stream
    ensures stream.Valid() && ok == ItemBytes.UnserializeAttr(types, box, it, old(stream.Rest())).Some?
    ensures ok ==>
              ItemBytes.UnserializeAttr(types, box, it, old(stream.Rest()))
              == Some(Loaded(it', serializationCount, stream.Rest()))
  {
    hide ReadInt, ItemBytes.ReadAttr;
    it', serializationCount := it, 0;
    while stream.p < |stream.data|
      invariant stream.Valid()
      invariant ItemBytes.UnserializeAttr(types, box, it, old(stream.Rest()))
             == ItemBytes.UnserializeAttr(types, box, it', stream.Rest())
      decreases |stream.data| - stream.p
    {
      ghost var rest, before := stream.Rest(), stream.p;
      var tag := stream.data[stream.p];
      stream.p := stream.p + 1;
      assert stream.Rest() == rest[1..];
      if tag == 0 {
        return true, it', 0;
      }
      if tag == ATTR_CONTAINER_ITEMS {
        if !box {
          return false, it', 0;
        }
        var read, n := stream.Read(4, false);
        if !read || n < 0 {
          return false, it', 0;
        }
        return true, it', n;
      }
      var read;
      read, it' := ReadAttr(types, it', tag, stream);
      if !read {
        return false, it', 0;
      }
      assert |stream.Rest()| <= |rest| - 1;
    }
    assert stream.Rest() == [];
    ok := true;
  }

  /** IOMapSerialize::loadItem into a container or, for items that move, onto a tile. */
  method LoadItem(types: Types, draws: Draws, stream: PropStream) returns (ok: bool, item: Option<Item>)
    requires stream.Valid()
    modifies stream
    ensures stream.Valid() && ok == ItemBytes.LoadItem(types, draws, old(stream.Rest())).Some?
    ensures ok ==> ItemBytes.LoadItem(types, draws, old(stream.Rest())) == Some((item, stream.Rest()))
    decreases |stream.data| - stream.p, 0
  {
    hide ReadInt, ItemBytes.UnserializeAttr, CreateItem;
    var read, id := stream.Read(2, false);
    if !read || id < 0 {
      return false, None;
    }
    ghost var afterId := stream.Rest();
    var created := CreateItem(types, draws([]), id);
    if created == None {
      return true, None;
    }
    var it, n;
    read, it, n := UnserializeAttr(types, IsContainer(types, id), created.value, stream);
    if !read {
      return false, None;
    }
    assert |stream.Rest()| <= |afterId|;
    if IsContainer(types, id) {
      var kids;
      read, kids := LoadContainer(types, draws, n, stream);
      if !read {
        return false, None;
      }
      it := it.(kids := kids);
    }
    return true, Some(it);
  }

  /** IOMapSerialize::loadContainer: contents are pushed to the front as they are read. */
  method LoadContainer(types: Types, draws: Draws, count: nat, stream: PropStream)
    returns (ok: bool, itemlist: seq<Item>)
    requires stream.Valid()
    modifies stream
    ensures stream.Valid() && ok == ItemBytes.LoadContainer(types, draws, count, old(stream.Rest()), []).Some?
    ensures ok ==>
              ItemBytes.LoadContainer(types, draws, count, old(stream.Rest()), []) == Some((itemlist, stream.Rest()))
    decreases |stream.data| - stream.p, 1
  {
    hide ItemBytes.LoadItem;
    itemlist := [];
    var serializationCount := count;
    while serializationCount > 0
      invariant stream.Valid() && stream.p >= old(stream.p)
      invariant ItemBytes.LoadContainer(types, draws, count, old(stream.Rest()), [])
             == ItemBytes.LoadContainer(types, draws, serializationCount, stream.Rest(), itemlist)
    {
      ghost var rest := stream.Rest();
      var read, it := LoadItem(types, Under(draws, serializationCount - 1), stream);
      if !read {
        return false, [];
      }
      assert |stream.Rest()| < |rest|;
      if it.Some? {
        itemlist := [it.value] + itemlist;
      } else {
        assert [] + itemlist == itemlist;
      }
      serializationCount := serializationCount - 1;
    }
    if stream.p == |stream.data| || stream.data[stream.p] != 0 {
      return false, [];
    }
    stream.p := stream.p + 1;
    ok := true;
  }

  /**
   startDecaying of an item just put onto a tile. The calls made while its contents were read had no
   effect: they lay in a container that itself lay nowhere. `lasts` tells that nothing in the tree is
   handed to internalDecayItem at once.
   */
  method StartDecaying(types: Types, it: Item) returns (live: Item, lasts: bool)
    ensures live == Live(types, it) && lasts == Lasting(types, it)
    decreases it
  {
    if IsContainer(types, it.id) {
      var kids: seq<Item>, k: nat := [], 0;
      lasts := true;
      while k < |it.kids|
        invariant k == |kids| <= |it.kids|
        invariant forall j | 0 <= j < k :: kids[j] == Live(types, it.kids[j])
        invariant lasts == forall j | 0 <= j < k :: Lasting(types, it.kids[j])
      {
        var kid, kidLasts := StartDecaying(types, it.kids[k]);
        kids, lasts, k := kids + [kid], lasts && kidLasts, k + 1;
      }
      return it.(kids := kids), lasts;
    }
    live, lasts := it, true;
    if CanDecay(types, it) && GetInt(it, DecayState) != DECAYING_TRUE {
      if HasTime(it) {
        live := SetInt(it, DecayState, DECAYING_TRUE);
      } else {
        lasts := false;
      }
    }
  }

  /** IOMapSerialize::loadItem onto a tile. */
  method LoadOntoTile(types: Types, draws: Draws, stream: PropStream)
    returns (ok: bool, item: Option<Item>, lasts: bool)
    requires stream.Valid()
    modifies stream
    ensures stream.Valid() && ok == ItemBytes.LoadItem(types, draws, old(stream.Rest())).Some?
    ensures ok ==>
              && ItemBytes.LoadItem(types, draws, old(stream.Rest())).value.1 == stream.Rest()
              && match ItemBytes.LoadItem(types, draws, old(stream.Rest())).value.0
                 case None => item == None
                 case Some(it) => item == Some(Live(types, it)) && lasts == Lasting(types, it)
  {
    hide ItemBytes.LoadItem, Live, Lasting;
    lasts := true;
    ok, item := LoadItem(types, draws, stream);
    if ok && item.Some? {
      var live;
      live, lasts := StartDecaying(types, item.value);
      item := Some(live);
    }
  }

  /** Saved to one stream and loaded onto a tile from another, followed by anything. */
  method SaveThenLoad(types: Types, draws: Draws, it: Item, rest: seq<Byte>)
    returns (ok: bool, item: Option<Item>, lasts: bool, stream: PropStream)
    requires Storable(types, it)
    ensures stream.Valid() && ok == Readable(it)
    ensures ok ==>
              && item == Some(Live(types, Back(types, draws, it))) && stream.Rest() == rest
              && (Typed(it) ==> (item == Some(it) && lasts <==> Stays(types, draws, it)))
  {
    hide ItemBytes.SaveItem, ItemBytes.LoadItem, Back, Storable, Readable, Live, Lasting, Stays, Typed;
    var writer := new PropWriteStream();
    SaveItem(types, it, writer);
    assert writer.buffer == ItemBytes.SaveItem(types, it);
    stream := new PropStream(writer.buffer + rest);
    LoadSaved(types, draws, it, rest);
    if Typed(it) {
      LiveExactly(types, draws, it);
    }
    ok, item, lasts := LoadOntoTile(types, draws, stream);
  }
}
