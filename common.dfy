/** Ethereum value helpers (src/bc_tools/common.py): the type-string dispatch of
    `cast`, `is_good_tx`, and the wei/ether scaling in `eth_usd` and `get_gas_used`. */
module EthTools {
  import opened Results

  type byte = b: int | 0 <= b < 256

  /** The Python values `cast` receives and returns. */
  datatype Value = Str(s: string) | Bytes(bytes: seq<byte>) | Int(i: int) | Bool(b: bool)

  /** The web3 conversions `cast` delegates to; they are outside this model.
      `None` means the conversion raised. `Web3.to_checksum_address` takes its
      value as its one positional parameter and has no `hexstr` keyword. */
  datatype Web3 = Web3(
    checksum: Value -> Option<string>,          // Web3.to_checksum_address(...)
    intFromHex: Value -> Option<int>,           // Web3.to_int(hexstr=...)
    intFromText: Value -> Option<int>,          // Web3.to_int(text=...)
    bytesFromHex: Value -> Option<seq<byte>>,   // Web3.to_bytes(hexstr=...)
    bytesFromText: Value -> Option<seq<byte>>)  // Web3.to_bytes(text=...)

  /** `needle in hay` on Python strings: a substring test. */
  predicate Contains(hay: string, needle: string)
    decreases |hay|
  {
    needle <= hay || (hay != [] && Contains(hay[1..], needle))
  }

  /** `needle` occurs in `hay` starting at offset `i`. */
  predicate OccursAt(hay: string, needle: string, i: nat) {
    i + |needle| <= |hay| && hay[i..i + |needle|] == needle
  }

  /** The substring test agrees with "occurs at some offset". */
  lemma {:induction false} ContainsIffOccurs(hay: string, needle: string)
    ensures Contains(hay, needle) <==> exists i: nat :: OccursAt(hay, needle, i)
    decreases |hay|
  {
    if needle <= hay {
      assert OccursAt(hay, needle, 0);
    } else if hay != [] {
      ContainsIffOccurs(hay[1..], needle);
      if exists i: nat :: OccursAt(hay[1..], needle, i) {
        var i: nat :| OccursAt(hay[1..], needle, i);
        assert hay[i + 1..i + 1 + |needle|] == hay[1..][i..i + |needle|];
        assert OccursAt(hay, needle, i + 1);
      }
      if exists i: nat :: OccursAt(hay, needle, i) {
        var i: nat :| OccursAt(hay, needle, i);
        if i == 0 {
          assert false;
        }
        assert hay[1..][i - 1..i - 1 + |needle|] == hay[i..i + |needle|];
        assert OccursAt(hay[1..], needle, i - 1);
      }
    }
  }

  /** Which branch of `cast` a type string selects, in the order the code tests them. */
  datatype Kind = AddressKind | BoolKind | IntKind | BytesKind | UnknownKind

  function KindOf(typ: string): Kind {
    if typ == "address" then AddressKind
    else if typ == "bool" then BoolKind
    else if Contains(typ, "int") then IntKind
    else if Contains(typ, "bytes") then BytesKind
    else UnknownKind
  }

  /** The strings the non-hex bool branch reads as true. */
  const TrueStrings: seq<string> := ["True", "true", "1", "t", "T"]

  /** `int.from_bytes(b, byteorder='big')`. */
  function BigEndian(bytes: seq<byte>): (n: nat)
    ensures n < Pow256(|bytes|)
  {
    if bytes == [] then 0
    else
      var init := BigEndian(bytes[..|bytes| - 1]);
      assert init + 1 <= Pow256(|bytes| - 1);
      assert 256 * (init + 1) <= 256 * Pow256(|bytes| - 1);
      256 * init + bytes[|bytes| - 1]
  }

  function Pow256(n: nat): (p: nat)
    ensures p > 0
  {
    if n == 0 then 1 else 256 * Pow256(n - 1)
  }

  /** The conversion `cast` attempts; `None` when it raises. */
  function Convert(web3: Web3, value: Value, typ: string, isHex: bool): Option<Value> {
    match KindOf(typ)
    case AddressKind =>
      if isHex then
        // `to_checksum_address(hexstr=...)`: an unexpected keyword, so TypeError
        None
      else
        var a := web3.checksum(value);
        if a.Some? then Some(Str(a.value)) else None
    case BoolKind =>
      if isHex then
        var n := web3.intFromHex(value);
        if n.Some? then Some(Bool(n.value != 0)) else None
      else
        Some(Bool(value.Str? && value.s in TrueStrings))
    case IntKind =>
      if isHex then
        // int.from_bytes raises TypeError unless it is handed bytes
        if value.Bytes? then Some(Int(BigEndian(value.bytes))) else None
      else
        var n := web3.intFromText(value);
        if n.Some? then Some(Int(n.value)) else None
    case BytesKind =>
      var b := if isHex then web3.bytesFromHex(value) else web3.bytesFromText(value);
      if b.Some? then Some(Bytes(b.value)) else None
    case UnknownKind => Some(value)
  }

  /** `cast`: the converted value, or the original one when the conversion raised. */
  function Cast(web3: Web3, value: Value, typ: string, isHex: bool): (r: Value)
    ensures Convert(web3, value, typ, isHex).None? ==> r == value
  {
    var converted := Convert(web3, value, typ, isHex);
    if converted.Some? then converted.value else value
  }

  /** As written, the hex address cast raises on its keyword argument for every value,
      so `cast` hands back its input. */
  lemma HexAddressCastReturnsInput(web3: Web3, value: Value)
    ensures Convert(web3, value, "address", true).None?
    ensures Cast(web3, value, "address", true) == value
  {
  }

  /** The conversion the hex address branch evidently means: the value passed
      positionally to `to_checksum_address`, as the text branch does. */
  function ConvertIntended(web3: Web3, value: Value, typ: string, isHex: bool): Option<Value> {
    if KindOf(typ) == AddressKind && isHex then
      var a := web3.checksum(value);
      if a.Some? then Some(Str(a.value)) else None
    else Convert(web3, value, typ, isHex)
  }

  /** `cast` with the corrected hex address branch. */
  function CastIntended(web3: Web3, value: Value, typ: string, isHex: bool): (r: Value)
    ensures ConvertIntended(web3, value, typ, isHex).None? ==> r == value
  {
    var converted := ConvertIntended(web3, value, typ, isHex);
    if converted.Some? then converted.value else value
  }

  /** Corrected, a hex address is checksummed exactly as a text one is, and every
      other branch is the one written. */
  lemma CastIntendedChecksumsHexAddresses(web3: Web3, value: Value, typ: string, isHex: bool)
    ensures CastIntended(web3, value, "address", true) == Cast(web3, value, "address", false)
    ensures web3.checksum(value).Some? ==> CastIntended(web3, value, "address", true) == Str(web3.checksum(value).value)
    ensures KindOf(typ) != AddressKind || !isHex ==> CastIntended(web3, value, typ, isHex) == Cast(web3, value, typ, isHex)
  {
  }

  /** The non-hex bool cast is true exactly for the five spellings of truth. */
  lemma CastBoolText(web3: Web3, value: Value)
    ensures Cast(web3, value, "bool", false) == Bool(value in [Str("True"), Str("true"), Str("1"), Str("t"), Str("T")])
  {
    assert "bool" != "address" by { assert "bool"[0] != "address"[0]; }
    if value.Str? {
      assert (value.s in TrueStrings) == (value in [Str("True"), Str("true"), Str("1"), Str("t"), Str("T")]);
    }
  }

  /** The dispatch checks in order: exact 'address', exact 'bool', then
      substring 'int', then substring 'bytes'; any other type string leaves the value alone. */
  lemma CastDispatch(web3: Web3, value: Value, typ: string, isHex: bool)
    ensures typ == "address" ==> KindOf(typ) == AddressKind
    ensures typ == "bool" ==> KindOf(typ) == BoolKind
    ensures typ != "address" && typ != "bool" && (exists i: nat :: OccursAt(typ, "int", i))
      ==> KindOf(typ) == IntKind
    ensures (typ != "address" && typ != "bool" && !(exists i: nat :: OccursAt(typ, "int", i))
      && (exists i: nat :: OccursAt(typ, "bytes", i))) ==> KindOf(typ) == BytesKind
    ensures (typ != "address" && typ != "bool" && !(exists i: nat :: OccursAt(typ, "int", i))
      && !(exists i: nat :: OccursAt(typ, "bytes", i))) ==> KindOf(typ) == UnknownKind
    ensures KindOf(typ) == UnknownKind ==> Cast(web3, value, typ, isHex) == value
  {
    assert "bool" != "address" by { assert "bool"[0] != "address"[0]; }
    ContainsIffOccurs(typ, "int");
    ContainsIffOccurs(typ, "bytes");
  }

  /** Solidity integer type names such as `uint256` reach the integer branch. */
  lemma IntegerTypeNamesDispatchToInt()
    ensures KindOf("uint256") == IntKind
    ensures KindOf("int8") == IntKind
  {
    assert "int" <= "uint256"[1..];
    assert "int" <= "int8";
  }

  /** The hex cast of an integer type reads the bytes big-endian; handed a string
      instead of bytes it raises, and the original value comes back. */
  lemma CastHexInt(web3: Web3, value: Value, typ: string)
    requires KindOf(typ) == IntKind
    ensures value.Bytes? ==> Cast(web3, value, typ, true) == Int(BigEndian(value.bytes))
    ensures !value.Bytes? ==> Cast(web3, value, typ, true) == value
  {
  }

  /** Appending a byte shifts the number one byte left: 256·n + b. */
  lemma BigEndianAppend(bytes: seq<byte>, b: byte)
    ensures BigEndian(bytes + [b]) == 256 * BigEndian(bytes) + b
  {
    assert (bytes + [b])[..|bytes|] == bytes;
  }

  /** Big-endian reading of a concatenation: the high part shifted past the low part. */
  lemma {:induction false} BigEndianConcat(hi: seq<byte>, lo: seq<byte>)
    ensures BigEndian(hi + lo) == BigEndian(hi) * Pow256(|lo|) + BigEndian(lo)
    decreases |lo|
  {
    if lo == [] {
      assert hi + lo == hi;
    } else {
      var init := lo[..|lo| - 1];
      var b := lo[|lo| - 1];
      assert hi + lo == (hi + init) + [b];
      assert lo == init + [b];
      BigEndianAppend(hi + init, b);
      BigEndianAppend(init, b);
      BigEndianConcat(hi, init);
      ShiftByte(BigEndian(hi), Pow256(|init|), BigEndian(init), b);
    }
  }

  lemma ShiftByte(h: int, p: int, l: int, b: int)
    ensures 256 * (h * p + l) + b == h * (256 * p) + (256 * l + b)
  {
  }

  /** Leading zero bytes do not change the integer. */
  lemma LeadingZerosIgnored(bytes: seq<byte>)
    ensures BigEndian([0] + bytes) == BigEndian(bytes)
  {
    BigEndianConcat([0], bytes);
    assert BigEndian([0]) == 256 * BigEndian([]) + 0 by { assert [0][..0] == []; }
  }

  /** A transaction receipt: only the fields the helpers read. */
  datatype Receipt = Receipt(status: int, gasUsed: int)

  /** `is_good_tx`: a receipt with status 1 (success); 0 (reverted) or anything else is not. */
  predicate IsGoodTx(receipt: Receipt): (good: bool)
    ensures good <==> receipt.status == 1
  {
    receipt.status == 1
  }

  /** Python's `str.lower` on ASCII letters. */
  function Lower(s: string): (r: string)
    ensures |r| == |s|
  {
    if s == [] then []
    else [if 'A' <= s[0] <= 'Z' then (s[0] as int + 32) as char else s[0]] + Lower(s[1..])
  }

  /** One ether in wei. */
  const WeiPerEther: nat := 1_000_000_000_000_000_000

  /** The Ethereum denominations by lower-case name, in wei. */
  function UnitValue(name: string): Option<nat> {
    if name == "wei" then Some(1)
    else if name == "ether" then Some(WeiPerEther)
    else if name in {"kwei", "babbage", "femtoether"} then Some(1_000)
    else if name in {"mwei", "lovelace", "picoether"} then Some(1_000_000)
    else if name in {"gwei", "shannon", "nanoether", "nano"} then Some(1_000_000_000)
    else if name in {"szabo", "microether", "micro"} then Some(1_000_000_000_000)
    else if name in {"finney", "milliether", "milli"} then Some(1_000_000_000_000_000)
    else if name in {"kether", "grand"} then Some(1_000_000_000_000_000_000_000)
    else if name == "mether" then Some(1_000_000_000_000_000_000_000_000)
    else if name == "gether" then Some(1_000_000_000_000_000_000_000_000_000)
    else if name == "tether" then Some(1_000_000_000_000_000_000_000_000_000_000)
    else None
  }

  /** The largest amount of wei the conversions accept, 2^256 - 1. */
  const MaxWei: int := 115792089237316195423570985008687907853269984665640564039457584007913129639935

  /** The ValueErrors of the web3 unit conversions. */
  datatype UnitError = UnknownUnit | OutOfRange

  /** `Web3.from_wei(number, unit)` for an integer number of wei. */
  function FromWei(number: int, unit: string): Result<real, UnitError> {
    match UnitValue(Lower(unit))
    case None => Err(UnknownUnit)
    case Some(u) =>
      if number == 0 then Ok(0.0)
      else if number < 0 || number > MaxWei then Err(OutOfRange)
      else Ok(number as real / u as real)
  }

  /** `Web3.to_wei(number, unit)` for an integer number of units. */
  function ToWei(number: int, unit: string): Result<int, UnitError> {
    match UnitValue(Lower(unit))
    case None => Err(UnknownUnit)
    case Some(u) =>
      if number == 0 then Ok(0)
      else
        var wei := number * u;
        if wei < 0 || wei > MaxWei then Err(OutOfRange) else Ok(wei)
  }

  /** `eth_usd`: the amount converted to wei, then to ether, times the price of one
      ether (the price lookup is a parameter). */
  function EthUsd(amount: int, unit: string, ethPrice: real): Result<real, UnitError> {
    var wei := ToWei(amount, unit);
    if wei.Err? then Err(wei.error)
    else
      var ether := FromWei(wei.value, "Ether");
      if ether.Err? then Err(ether.error) else Ok(ether.value * ethPrice)
  }

  /** `get_gas_used`: the receipt's gas, read as wei and expressed in `unit`. */
  function GasUsed(receipt: Receipt, unit: string): Result<real, UnitError> {
    FromWei(receipt.gasUsed, unit)
  }

  lemma LowerOfUnitNames()
    ensures Lower("Wei") == "wei" && Lower("Ether") == "ether"
  {
  }

  /** One ether is 10^18 wei: a wei amount in range is worth amount / 10^18 ethers at the given price. */
  lemma EthUsdOfWei(amount: int, ethPrice: real)
    requires 0 <= amount <= MaxWei
    ensures EthUsd(amount, "Wei", ethPrice).Ok?
    ensures EthUsd(amount, "Wei", ethPrice).value == amount as real / WeiPerEther as real * ethPrice
  {
    LowerOfUnitNames();
    assert "ether" != "wei";
    var ether := amount as real / WeiPerEther as real;
    assert ToWei(amount, "Wei") == Ok(amount);
    assert FromWei(amount, "Ether") == Ok(ether);
  }

  /** A wei amount outside 0 .. 2^256 - 1 makes `eth_usd` raise. */
  lemma EthUsdOutOfRange(amount: int, ethPrice: real)
    requires amount < 0 || amount > MaxWei
    ensures EthUsd(amount, "Wei", ethPrice) == Err(OutOfRange)
  {
    LowerOfUnitNames();
  }

  /** `eth_usd` of wei is additive in the amount. */
  lemma EthUsdLinear(a: int, b: int, ethPrice: real)
    requires 0 <= a && 0 <= b && a + b <= MaxWei
    ensures EthUsd(a + b, "Wei", ethPrice).Ok?
    ensures EthUsd(a + b, "Wei", ethPrice).value == EthUsd(a, "Wei", ethPrice).value + EthUsd(b, "Wei", ethPrice).value
  {
    EthUsdOfWei(a, ethPrice);
    EthUsdOfWei(b, ethPrice);
    EthUsdOfWei(a + b, ethPrice);
    var e := WeiPerEther as real;
    assert (a + b) as real / e == a as real / e + b as real / e;
    Distribute(a as real / e, b as real / e, ethPrice);
  }

  /** No wei is worth nothing, whatever the ether price. */
  lemma EthUsdOfZero(ethPrice: real)
    ensures EthUsd(0, "Wei", ethPrice) == Ok(0.0)
  {
    EthUsdOfWei(0, ethPrice);
  }

  lemma Distribute(x: real, y: real, k: real)
    ensures (x + y) * k == x * k + y * k
  {
  }

  /** `get_gas_used(r, 'Ether')` is the gas divided by 10^18. */
  lemma GasUsedInEther(receipt: Receipt)
    requires 0 <= receipt.gasUsed <= MaxWei
    ensures GasUsed(receipt, "Ether") == Ok(receipt.gasUsed as real / WeiPerEther as real)
  {
    LowerOfUnitNames();
  }
}
