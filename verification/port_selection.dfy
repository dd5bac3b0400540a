/**
  Serial port choice shared by both calibrators (`getPortName`): the first
  port whose name contains "usbmodem", or the literal "NOT FOUND!".
  The list of port names is the host's answer to `input.getPortNames()`,
  passed in as a parameter.
 */
module PortSelection {
  import Strings

  const UsbModem: string := "usbmodem"
  const NotFound: string := "NOT FOUND!"

  predicate IsUsbModem(name: string) {
    Strings.Contains(name, UsbModem)
  }

  /** `k` is the index of the first port name that contains "usbmodem". */
  ghost predicate IsFirstUsbModem(ports: seq<string>, k: int) {
    && 0 <= k < |ports|
    && IsUsbModem(ports[k])
    && forall j :: 0 <= j < k ==> !IsUsbModem(ports[j])
  }

  ghost predicate NoUsbModem(ports: seq<string>) {
    forall j :: 0 <= j < |ports| ==> !IsUsbModem(ports[j])
  }

  /** The fallback name is not itself a usbmodem name, so it cannot be confused with a match. */
  lemma NotFoundIsNoUsbModem()
    ensures !IsUsbModem(NotFound)
  {
    assert forall i :: 0 <= i < |NotFound| ==> NotFound[i] != UsbModem[0];
    assert forall i :: Strings.OccursAt(NotFound, UsbModem, i) ==> NotFound[i..i + |UsbModem|][0] == UsbModem[0];
  }

  /** The `foreach` with an early `return` over the port names. */
  method GetPortName(ports: seq<string>) returns (name: string)
    ensures (exists k :: IsFirstUsbModem(ports, k) && name == ports[k])
            || (NoUsbModem(ports) && name == NotFound)
    ensures IsUsbModem(name) <==> !NoUsbModem(ports)
  {
    NotFoundIsNoUsbModem();
    var i := 0;
    while i < |ports|
      invariant 0 <= i <= |ports|
      invariant forall j :: 0 <= j < i ==> !IsUsbModem(ports[j])
    {
      if IsUsbModem(ports[i]) {
        assert IsFirstUsbModem(ports, i);
        return ports[i];
      }
      i := i + 1;
    }
    return NotFound;
  }
}
