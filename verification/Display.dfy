/**
  What one renderer pass can do to the strip, driver failures included. The
  renderer controller is proved to stay inside these relations; the restart
  protocol reasons about every pass they allow.
 */
module Display {
  import opened Pixels

  /**
    The strip and what the renderer knows about it. `canLight` says that the
    held command exists and is actionable.
   */
  datatype Display = Display(strip: Frame, hasLast: bool, lastWritten: Frame, faulted: bool, canLight: bool)

  predicate DarkBeyond(frame: seq<Rgb>, pixelCount: size) {
    forall p :: pixelCount as int <= p < |frame| ==> frame[p] == BLACK
  }

  predicate BlackWritten(d: Display) {
    d.hasLast && d.lastWritten == BLACK_FRAME
  }

  /** The recorded frame is the whole strip, past the active length too; no record means a fault is held. */
  predicate Mirror(d: Display, pixelCount: ActiveLength) {
    && (d.hasLast ==> d.strip == d.lastWritten && DarkBeyond(d.lastWritten, pixelCount))
    && (!d.hasLast ==> d.faulted)
  }

  /** A lit write covers the active length, a black one the whole buffer. */
  function WriteLength(desired: Frame, pixelCount: ActiveLength): size {
    if desired == BLACK_FRAME then MAX_LED_COUNT else pixelCount
  }

  /** A write of `desired`: skipped, accepted, or failed with arbitrary strip contents and a black retry. */
  predicate WriteOutcome(d: Display, desired: Frame, pixelCount: ActiveLength, after: Display, ok: bool) {
    if d.hasLast && desired == d.lastWritten then
      ok && after == d
    else if ok then
      var n := WriteLength(desired, pixelCount);
      after == d.(strip := desired[..n] + d.strip[n..], hasLast := true, lastWritten := desired)
    else
      && after.faulted && after.canLight == d.canLight
      && (after.hasLast ==>
            desired != BLACK_FRAME && after.lastWritten == BLACK_FRAME && after.strip == BLACK_FRAME)
  }

  /** A frame the renderer may ask for: lit only without a fault and under an actionable command. */
  predicate Drawable(d: Display, desired: Frame, pixelCount: ActiveLength) {
    DarkBeyond(desired, pixelCount) && (desired != BLACK_FRAME ==> !d.faulted && d.canLight)
  }

  ghost predicate TickOutcome(d: Display, pixelCount: ActiveLength, after: Display, ok: bool) {
    exists desired: Frame :: Drawable(d, desired, pixelCount) && WriteOutcome(d, desired, pixelCount, after, ok)
  }

  /** Taking a command: a fault ends only when black was written after it. */
  function Received(d: Display, canLight: bool): Display {
    d.(canLight := canLight, faulted := d.faulted && !BlackWritten(d))
  }

  lemma WriteKeepsMirror(d: Display, desired: Frame, pixelCount: ActiveLength, after: Display, ok: bool)
    requires Mirror(d, pixelCount) && Drawable(d, desired, pixelCount)
    requires WriteOutcome(d, desired, pixelCount, after, ok)
    ensures Mirror(after, pixelCount)
    ensures ok ==> after.strip == desired && after.lastWritten == desired && after.hasLast
    ensures !ok ==> after.faulted
  {
    if ok && !(d.hasLast && desired == d.lastWritten) && desired != BLACK_FRAME {
      assert d.hasLast;
      assert forall p :: pixelCount as int <= p < 300 ==> d.strip[p] == BLACK && desired[p] == BLACK;
    }
  }

  /** Every pass, whatever the driver does, keeps the record and the strip in step. */
  lemma PassKeepsMirror(d: Display, pixelCount: ActiveLength, after: Display, ok: bool)
    requires Mirror(d, pixelCount) && TickOutcome(d, pixelCount, after, ok)
    ensures Mirror(after, pixelCount) && after.canLight == d.canLight
    ensures !ok ==> after.faulted
  {
    var desired: Frame :| Drawable(d, desired, pixelCount) && WriteOutcome(d, desired, pixelCount, after, ok);
    WriteKeepsMirror(d, desired, pixelCount, after, ok);
  }

  /** Once black is recorded under a command that cannot light, no pass touches the strip again. */
  lemma DarkIsStable(d: Display, pixelCount: ActiveLength, after: Display, ok: bool)
    requires Mirror(d, pixelCount) && BlackWritten(d) && !d.canLight
    requires TickOutcome(d, pixelCount, after, ok)
    ensures ok && after == d && d.strip == BLACK_FRAME
  {
  }
}
