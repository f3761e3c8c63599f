/**
 * Frontend contract configuration: the hard-coded contract addresses, the
 * zero-address test that tells whether one of them has been filled in, and
 * the scaling and duration constants the frontend uses.
 */
module ContractConfig {

  const ZERO_ADDRESS: string := "0x0000000000000000000000000000000000000000"

  /** The keys of CONTRACT_ADDRESSES. */
  datatype ContractName = Staking | CEth | CUsdt

  predicate IsHexDigit(c: char) {
    '0' <= c <= '9' || 'a' <= c <= 'f' || 'A' <= c <= 'F'
  }

  /** CONTRACT_ADDRESSES: each entry is "0x" and forty more characters, the first of them a non-zero hex digit. */
  function ContractAddress(name: ContractName): (a: string)
    ensures |a| == 42 && a[0] == '0' && a[1] == 'x'
    ensures IsHexDigit(a[2]) && a[2] != '0'
  {
    match name
    case Staking => "0x39c3a94e4a5B842E75de262D9C2B03F855789B12"
    case CEth => "0x2aa5b670f02082A28c778D7AB8e496EBE909863d"
    case CUsdt => "0xb13B3a6e87EDa714C172F89D9753eD18fEeA9593"
  }

  const TOKEN_SCALING: nat := 1_000_000
  const DEFAULT_SECONDS_PER_DAY: nat := 86_400
  const CUSDT_FAUCET_AMOUNT: nat := 10 * TOKEN_SCALING
  const APPROVAL_DURATION_SECONDS: nat := 7 * 24 * 60 * 60

  // ---------------------------------------------------------------------------
  // Lower-casing (addresses are ASCII)

  /** Lower-cases one ASCII letter; every other character is kept. */
  function LowerChar(c: char): (r: char)
    ensures !('A' <= r <= 'Z')
    ensures 'A' <= c <= 'Z' ==> 'a' <= r <= 'z' && r as int - c as int == 32
    ensures IsHexDigit(c) ==> IsHexDigit(r)
    ensures r == '0' <==> c == '0'
    ensures r == 'x' <==> c == 'x' || c == 'X'
  {
    if 'A' <= c <= 'Z' then (c as int + 32) as char else c
  }

  /** String.prototype.toLowerCase on ASCII text: same length, letters lowered one by one. */
  function ToLower(s: string): (r: string)
    ensures |r| == |s|
    ensures forall i :: 0 <= i < |s| ==> r[i] == LowerChar(s[i])
    ensures SameIgnoringCase(r, s)
    ensures forall i :: 0 <= i < |r| ==> !('A' <= r[i] <= 'Z')
  {
    seq(|s|, i requires 0 <= i < |s| => LowerChar(s[i]))
  }

  /** The two strings differ at most in the case of their letters. */
  predicate SameIgnoringCase(a: string, b: string) {
    |a| == |b| && forall i :: 0 <= i < |a| ==> LowerChar(a[i]) == LowerChar(b[i])
  }

  /** The ways of writing the zero address: "0x" or "0X", then forty '0'. */
  predicate SpellsZeroAddress(a: string) {
    && |a| == 42
    && a[0] == '0' && (a[1] == 'x' || a[1] == 'X')
    && forall i :: 2 <= i < 42 ==> a[i] == '0'
  }

  lemma ZeroAddressDigits()
    ensures |ZERO_ADDRESS| == 42 && ZERO_ADDRESS[0] == '0' && ZERO_ADDRESS[1] == 'x'
    ensures forall i :: 2 <= i < 42 ==> ZERO_ADDRESS[i] == '0'
  {
    assert ZERO_ADDRESS == "0x" + seq(40, _ => '0');
  }

  // ---------------------------------------------------------------------------
  // The predicates

  /** `address.toLowerCase() !== ZERO_ADDRESS` */
  function IsConfiguredAddress(address: string): (r: bool)
    ensures r <==> !SpellsZeroAddress(address)
  {
    ZeroAddressDigits();
    var lower := ToLower(address);
    assert SpellsZeroAddress(address) ==> lower == ZERO_ADDRESS;
    assert lower == ZERO_ADDRESS ==> SpellsZeroAddress(address) by {
      if lower == ZERO_ADDRESS {
        assert LowerChar(address[0]) == '0' && LowerChar(address[1]) == 'x';
        forall i | 2 <= i < 42 ensures address[i] == '0' {
          assert LowerChar(address[i]) == lower[i];
        }
      }
    }
    lower != ZERO_ADDRESS
  }

  /** Changing the case of an address's letters never changes whether it counts as set. */
  lemma ConfiguredIgnoresCase(a: string, b: string)
    requires SameIgnoringCase(a, b)
    ensures IsConfiguredAddress(a) == IsConfiguredAddress(b)
  {
    assert ToLower(a) == ToLower(b);
  }

  /** isContractConfigured(name) */
  function IsContractConfigured(name: ContractName): (r: bool)
    ensures r <==> !SpellsZeroAddress(ContractAddress(name))
  {
    IsConfiguredAddress(ContractAddress(name))
  }

  /** areCoreContractsConfigured(): staking, cETH and cUSDT are all set. */
  function AreCoreContractsConfigured(): (r: bool)
    ensures r <==> forall name: ContractName :: !SpellsZeroAddress(ContractAddress(name))
  {
    IsContractConfigured(Staking) && IsContractConfigured(CEth) && IsContractConfigured(CUsdt)
  }

  /** isStakingConfigured(): the same test as areCoreContractsConfigured(). */
  function IsStakingConfigured(): (r: bool)
    ensures r <==> forall name: ContractName :: IsContractConfigured(name)
  {
    AreCoreContractsConfigured()
  }

  /** With the addresses hard-coded here, every core contract counts as configured. */
  lemma HardCodedAddressesAreConfigured()
    ensures AreCoreContractsConfigured() && IsStakingConfigured()
  {
    HardCodedAddressIsConfigured(Staking);
    HardCodedAddressIsConfigured(CEth);
    HardCodedAddressIsConfigured(CUsdt);
  }

  /** Each hard-coded address has a non-zero first hex digit. */
  lemma HardCodedAddressIsConfigured(name: ContractName)
    ensures IsContractConfigured(name)
  {
    NonZeroDigitIsConfigured(ContractAddress(name));
  }

  /** An address whose first hex digit is not '0' is configured. */
  lemma NonZeroDigitIsConfigured(a: string)
    requires |a| > 2 && a[2] != '0'
    ensures IsConfiguredAddress(a)
  {
  }

  /** The faucet hands out ten tokens; an approval lasts one week. */
  lemma DerivedConstants()
    ensures CUSDT_FAUCET_AMOUNT == 10_000_000
    ensures APPROVAL_DURATION_SECONDS == 604_800 == 7 * DEFAULT_SECONDS_PER_DAY
  {
  }
}
