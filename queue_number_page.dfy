/** The ticket page (app/queue-number/page.tsx): the page shown after a
    ticket is issued, reading the number and the name from the URL. */
module QueueNumberPage {

  import opened Wrappers
  import opened Records
  import opened Text

  /** What the page shows: the "Invalid Queue Number" card, or the ticket
      with its padded number and the customer's name. */
  datatype View =
    | InvalidTicket
    | TicketView(number: string, name: string)

  /** `queueNumber.toString().padStart(2, '0')`. */
  function PadStart2(s: string): (r: string)
    ensures |r| == if |s| >= 2 then |s| else 2
    ensures |r| >= |s| && r[|r| - |s|..] == s
    ensures forall i :: 0 <= i < |r| - |s| ==> r[i] == '0'
    ensures |s| >= 2 ==> r == s
  {
    if |s| >= 2 then s
    else if |s| == 1 then "0" + s
    else "00"
  }

  /** The page for the `number` and `name` query parameters: either one
      missing or empty gives the invalid card. */
  function Page(number: Option<string>, name: Option<string>): (v: View)
    ensures v.InvalidTicket? <==> !Present(number) || !Present(name)
    ensures v.TicketView? ==> v.name == name.value && v.number == PadStart2(number.value)
  {
    if !Present(number) || !Present(name) then InvalidTicket
    else TicketView(PadStart2(number.value), name.value)
  }

  /** The leading zeros of the padding do not change the number: the
      padded digits of a ticket number read back as that number. */
  lemma PaddedNumberReadsBack(n: nat)
    ensures AllDigits(PadStart2(NatToString(n)))
    ensures DecimalValue(PadStart2(NatToString(n))) == n
  {
    var d := NatToString(n);
    DecimalRoundTrip(n);
    if |d| == 1 {
      var p := PadStart2(d);
      assert p == ['0'] + d;
      assert p[..1] == ['0'] && p[1..] == d;
      LeadingZeroKeepsValue(d);
    }
  }

  /** A leading `'0'` adds nothing to a decimal value. */
  lemma {:induction false} LeadingZeroKeepsValue(d: string)
    requires AllDigits(d)
    ensures AllDigits(['0'] + d)
    ensures DecimalValue(['0'] + d) == DecimalValue(d)
  {
    var z := ['0'] + d;
    assert forall i :: 0 <= i < |z| ==> IsDigit(z[i]);
    if d != [] {
      var init := d[..|d| - 1];
      assert z[..|z| - 1] == ['0'] + init;
      assert z[|z| - 1] == d[|d| - 1];
      LeadingZeroKeepsValue(init);
    }
  }
}
