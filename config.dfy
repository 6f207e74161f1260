/** Compile-time constants of the arena and the fixed-width integer types the
    game logic reads from SDL. */
module Config {

  /** Capacity of the ship table and of the bullet table (one bullet per ship). */
  const SHIP_MAX: nat := 4
  /** Capacity of the controller table. */
  const JOYSTICK_MAX: nat := 4

  /** Logical ticks per second. */
  const FPS: real := 30.0

  const SHIP_ACCEL: real := 1.0 / 8.0
  const SHIP_TACCEL: real := 4.0 / 1.0
  const SHIP_RADIUS: real := 1.0 / 16.0 / 2.0

  const BULLET_VELOCITY: real := 1.0 / 32.0
  /** Bullet lifetime in SDL ticks (milliseconds): 1024/4.0. */
  const BULLET_TIME: int := 256
  const BULLET_RADIUS: real := 1.0 / 64.0 / 2.0

  /** The literal value of M_PI. */
  const PI: real := 3.141592653589793

  /** SDL's Uint32 (the tick clock), Sint16 (an axis) and Uint8 (a button). */
  type u32 = x: int | 0 <= x < 0x1_0000_0000
  type i16 = x: int | -0x8000 <= x < 0x8000
  type u8 = x: int | 0 <= x < 0x100
}
