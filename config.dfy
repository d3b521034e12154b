/** The crawler's configuration constants (config.py). */
module Config {

  const BASE_URL: string := "https://tuoitre.vn"

  const DEFAULT_CATEGORIES: seq<string> := [
    "https://tuoitre.vn/thoi-su.htm",
    "https://tuoitre.vn/the-gioi.htm",
    "https://tuoitre.vn/phap-luat.htm"
  ]

  const DEFAULT_POSTS_PER_CATEGORY: int := 35
  const MAX_RETRIES: int := 3

  const BASE_OUTPUT_DIR: string := "output"
  /** `os.path.join(BASE_OUTPUT_DIR, "data")` and its two siblings. */
  const DATA_DIR: string := "output/data"
  const IMAGES_DIR: string := "output/images"
  const AUDIO_DIR: string := "output/audio"

  const OUTPUT_FORMAT: string := "json"
}
