/** The handful of platform types and constants the notification core touches.
    They are opaque handles here: nothing of their behaviour is modelled. */
module Android {

  /** A byte of a `ByteArray`. */
  newtype byte = x: int | 0 <= x < 256

  /** A decoded image (`android.graphics.Bitmap`), identified by a handle. */
  datatype Bitmap = Bitmap(handle: nat)

  /** An intent to launch when the notification is tapped (`android.app.PendingIntent`). */
  datatype PendingIntent = PendingIntent(requestCode: int)

  /** `android.graphics.Color.TRANSPARENT`, the colour integer 0x00000000. */
  const TRANSPARENT: int := 0

  /** The exceptions the modelled code can throw. */
  datatype Exception =
    | ClassCastException                     // an `as T?` cast of a value of another type
    | UninitializedPropertyAccessException   // reading a `lateinit var` before its first assignment
}
