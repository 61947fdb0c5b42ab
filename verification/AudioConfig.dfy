/** Sizes of the audio that the server works on: 20 ms frames of 16-bit mono samples at 8 kHz. */
module AudioConfig {
  const SAMPLES_PER_FRAME := 160
  const FRAME_SIZE_BYTES := 320
  const BUFFER_SIZE := 131072
  const FRAMES_PER_BUFFER := BUFFER_SIZE / FRAME_SIZE_BYTES  // whole frames
}
